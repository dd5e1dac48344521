/** The vetting verdict for one edge (`era_band`, `degree_country` and `classify_edge` of the vetting
    model).  Record fields are typed, the East German institution pattern is a flag of the record, and
    only the tier and its reasons are kept of the verdict. */
module VettingRisk {
  import opened Options
  import opened Regime
  import opened Strings

  /** What the model reads of a person's record. */
  datatype Person = Person(
    defenseYear: Option<int>, thesisYear: Option<int>, birthYear: Option<int>,
    degreeCountries: seq<Country>, countryCode: Option<Country>, gdrInstitution: bool,
    sudocPre1985Count: Option<int>, sudocPre1985Year: Option<int>, degreeType: string)

  const ERA_LO_OFFSET: int := 23
  const ERA_HI_OFFSET: int := 40
  const GDR_FROM: int := 1949
  const GDR_TO: int := 1990
  const PREMODERN_BEFORE: int := 1810

  /** Years the doctorate may have been taken in, from the record alone. */
  function EraBand(p: Person): Option<Band> {
    if p.defenseYear.Some? then Some(Band(p.defenseYear.value, p.defenseYear.value))
    else if p.thesisYear.Some? then Some(Band(p.thesisYear.value, p.thesisYear.value))
    else if p.birthYear.Some? then Some(Band(p.birthYear.value + ERA_LO_OFFSET, p.birthYear.value + ERA_HI_OFFSET))
    else None
  }

  /** The student's own era, else one generation after the advisor's. */
  function EdgeEra(student: Person, advisor: Option<Person>): (band: Option<Band>)
    ensures band.Some? ==> band.value.lo <= band.value.hi
  {
    var own := EraBand(student);
    if own.Some? || advisor == None then own
    else
      var theirs := EraBand(advisor.value);
      if theirs == None then None else Some(Band(theirs.value.lo + 20, theirs.value.hi + 40))
  }

  function Overlap(ccs: seq<Country>, others: seq<Country>): seq<Country> {
    if ccs == [] then []
    else (if ccs[0] in others then [ccs[0]] else []) + Overlap(ccs[1..], others)
  }

  /** Where the doctorate was taken; ambiguity is never guessed away. */
  function DegreeCountry(student: Person, advisor: Option<Person>): Option<Country> {
    var ccs := student.degreeCountries;
    if |ccs| == 1 then Some(ccs[0])
    else if |ccs| > 1 then
      var overlap := Overlap(ccs, if advisor.Some? then advisor.value.degreeCountries else []);
      if |overlap| == 1 then Some(overlap[0]) else None
    else if student.countryCode.Some? then student.countryCode
    else if advisor.Some? && advisor.value.degreeCountries != [] then Some(advisor.value.degreeCountries[0])
    else None
  }

  /** German doctorates from East German institutions, entirely within the GDR's existence, follow
      the DD row. */
  function RegimeCountry(student: Person, advisor: Option<Person>): Option<Country> {
    var cc, band := DegreeCountry(student, advisor), EdgeEra(student, advisor);
    if cc == Some(DE) && band.Some? && band.value.lo >= GDR_FROM && band.value.hi <= GDR_TO && student.gdrInstitution
    then Some(DD) else cc
  }

  /** Credentials that are not a first doctorate, in the order they are tried. */
  const RETYPE_CREDENTIAL: seq<(string, string)> := [
    ("habilitation", "habilitation_sponsor"), ("doctor of sciences", "higher_doctorate_sponsor"),
    ("doktor nauk", "higher_doctorate_sponsor"), ("professor", "not_a_degree"), ("docent", "not_a_degree"),
    ("emeritus", "not_a_degree"), ("honorary", "honorary_not_doctoral"), ("master", "not_a_doctorate"),
    ("bachelor", "not_a_doctorate"), ("magister", "not_a_doctorate"), ("laurea", "laurea_relatore"),
    ("licentiate", "licentiate_supervisor")]

  /** The degree string, in lower case, names one of the listed credentials. */
  predicate HasCredential(degree: string, table: seq<(string, string)>) {
    exists i :: 0 <= i < |table| && Contains(degree, table[i].0)
  }

  predicate BornAfter(student: Person, advisor: Option<Person>) {
    student.birthYear.Some? && advisor.Some? && advisor.value.birthYear.Some?
    && advisor.value.birthYear.value > student.birthYear.value
  }

  /** The registry resolves the one doubt about a French edge. */
  predicate Lifts(student: Person, cc: Option<Country>, band: Option<Band>) {
    cc == Some(FR) && student.sudocPre1985Count == Some(1) && band.Some? && 1810 <= band.value.lo < 1985
  }

  /** One pre-1985 French doctorate on record and an era that starts inside the French REVIEW window. */
  predicate SudocLifts(student: Person, advisor: Option<Person>) {
    Lifts(student, RegimeCountry(student, advisor), EdgeEra(student, advisor))
  }

  predicate PreModernEra(student: Person, advisor: Option<Person>) {
    EdgeEra(student, advisor).Some? && EdgeEra(student, advisor).value.hi < PREMODERN_BEFORE
  }

  function RegimeFloor(student: Person, advisor: Option<Person>): Tier {
    Floor(RegimeCountry(student, advisor), EdgeEra(student, advisor))
  }

  const FRANCE_WINDOW: Window := Window(1810, 1985, REVIEW)

  /** The French REVIEW window is the only reason for doubt exactly for eras that start inside it. */
  lemma {:induction false} FranceWindowAlone(band: Band)
    requires band.lo <= band.hi
    ensures Floor(Some(FR), Some(band)) == REVIEW && WorstTouched(Rows(FR), band).Some?
              && Doubts(FR, Rows(FR), band) == [InWindow(FR, FRANCE_WINDOW)]
       <==> 1810 <= band.lo < 1985
  {
    var rows := Rows(FR);
    assert rows[..2][..1] == rows[..1] && rows[..1][..0] == [];
    assert Doubts(FR, rows[..1], band) == if Touches(rows[0], band) then [InWindow(FR, rows[0])] else [];
    assert Doubts(FR, rows[..2], band)
        == Doubts(FR, rows[..1], band) + if Touches(rows[1], band) then [InWindow(FR, rows[1])] else [];
    assert Doubts(FR, rows, band) == Doubts(FR, rows[..2], band) + [];
    WorstTouchedIs(rows, band);
  }

  type Credentials = seq<(string, string)>

  /** Entry `i` is the first of the table that the degree string names. */
  predicate FirstNamed(degree: string, table: Credentials, i: nat) {
    i < |table| && Contains(degree, table[i].0) && !HasCredential(degree, table[..i])
  }

  method FindCredential(degree: string, table: Credentials) returns (at: Option<nat>)
    ensures at.Some? <==> HasCredential(degree, table)
    ensures at.Some? ==> FirstNamed(degree, table, at.value)
  {
    for i := 0 to |table|
      invariant !HasCredential(degree, table[..i])
    {
      assert table[..i + 1] == table[..i] + [table[i]];
      if Contains(degree, table[i].0) {
        return Some(i);
      }
    }
    assert table[..|table|] == table;
    return None;
  }

  /** First listed credential that the degree string names. */
  method RecordedCredential(degree: string) returns (kind: Option<string>)
    ensures kind.Some? <==> HasCredential(degree, RETYPE_CREDENTIAL)
    ensures kind.Some? ==>
              exists i :: 0 <= i < |RETYPE_CREDENTIAL| && FirstNamed(degree, RETYPE_CREDENTIAL, i)
                          && kind.value == RETYPE_CREDENTIAL[i].1
  {
    var table := RETYPE_CREDENTIAL;
    var at := FindCredential(degree, table);
    kind := if at.Some? then Some(table[at.value].1) else None;
  }

  function LiftedReasons(student: Person, cc: Option<Country>, band: Option<Band>): seq<Reason> {
    if Lifts(student, cc, band) then [SudocSingle(student.sudocPre1985Year)]
    else if cc == Some(FR) && student.sudocPre1985Count.Some? && student.sudocPre1985Count.value > 1 then
      RegimeReasons(cc, band) + [SudocMulti(student.sudocPre1985Count.value)]
    else RegimeReasons(cc, band)
  }

  /** The regime floor, lifted by registry evidence when the French window is the only doubt. */
  method LiftedRegime(student: Person, cc: Option<Country>, band: Option<Band>)
    returns (tier: Tier, reasons: seq<Reason>)
    requires band.Some? ==> band.value.lo <= band.value.hi
    ensures tier == if Lifts(student, cc, band) then TRUST else Floor(cc, band)
    ensures reasons == LiftedReasons(student, cc, band)
  {
    tier, reasons := RegimeTier(cc, band);
    if cc == Some(FR) && band.Some? {
      FranceWindowAlone(band.value);
    }
    if student.sudocPre1985Count.Some? && cc == Some(FR) {
      if student.sudocPre1985Count.value == 1 && tier == REVIEW && reasons == [InWindow(FR, FRANCE_WINDOW)] {
        tier, reasons := TRUST, [SudocSingle(student.sudocPre1985Year)];
      } else if student.sudocPre1985Count.value > 1 {
        reasons := reasons + [SudocMulti(student.sudocPre1985Count.value)];
      }
    }
  }

  /** The verdict for a doctorate of a given country and band. */
  function VerdictFor(student: Person, cc: Option<Country>, band: Option<Band>, bornAfter: bool): Tier {
    var regime := if Lifts(student, cc, band) then TRUST else Floor(cc, band);
    if (band.Some? && band.value.hi < PREMODERN_BEFORE) || HasCredential(Lower(student.degreeType), RETYPE_CREDENTIAL)
    then RETYPE
    else if bornAfter && regime != RETYPE then SUSPECT
    else regime
  }

  function Verdict(student: Person, advisor: Option<Person>): Tier {
    VerdictFor(student, RegimeCountry(student, advisor), EdgeEra(student, advisor), BornAfter(student, advisor))
  }

  /** What the first listed credential that the degree names stands for. */
  function CredentialReason(degree: string, table: Credentials): seq<Reason> {
    if table == [] then []
    else if Contains(degree, table[0].0) then [Credential(table[0].1)]
    else CredentialReason(degree, table[1..])
  }

  lemma {:induction false} CredentialReasonIs(degree: string, table: Credentials, at: Option<nat>)
    requires at.Some? ==> FirstNamed(degree, table, at.value)
    requires at.None? ==> !HasCredential(degree, table)
    ensures CredentialReason(degree, table) == if at.Some? then [Credential(table[at.value].1)] else []
  {
    if table != [] {
      var rest := table[1..];
      if at == None {
        assert forall i :: 0 <= i < |rest| ==> rest[i] == table[i + 1];
        CredentialReasonIs(degree, rest, None);
      } else if at.value > 0 {
        var n := at.value - 1;
        assert table[..at.value][0] == table[0];
        assert forall i :: 0 <= i < n ==> rest[..n][i] == table[..at.value][i + 1];
        CredentialReasonIs(degree, rest, Some(n));
      }
    }
  }

  lemma {:induction false} NamedReason(degree: string, kind: Option<string>)
    requires kind.Some? <==> HasCredential(degree, RETYPE_CREDENTIAL)
    requires kind.Some? ==>
               exists i :: 0 <= i < |RETYPE_CREDENTIAL| && FirstNamed(degree, RETYPE_CREDENTIAL, i)
                           && kind.value == RETYPE_CREDENTIAL[i].1
    ensures CredentialReason(degree, RETYPE_CREDENTIAL) == if kind.Some? then [Credential(kind.value)] else []
  {
    if kind.Some? {
      var i :| 0 <= i < |RETYPE_CREDENTIAL| && FirstNamed(degree, RETYPE_CREDENTIAL, i)
        && kind.value == RETYPE_CREDENTIAL[i].1;
      CredentialReasonIs(degree, RETYPE_CREDENTIAL, Some(i));
    } else {
      CredentialReasonIs(degree, RETYPE_CREDENTIAL, None);
    }
  }

  function Reasons(student: Person, advisor: Option<Person>): seq<Reason> {
    var cc, band := RegimeCountry(student, advisor), EdgeEra(student, advisor);
    LiftedReasons(student, cc, band)
    + (if PreModernEra(student, advisor) then [PreModern] else [])
    + CredentialReason(Lower(student.degreeType), RETYPE_CREDENTIAL)
    + if BornAfter(student, advisor) then [AdvisorBornAfter] else []
  }

  /** Each tier is reached exactly under its conditions. */
  lemma {:induction false} VerdictTiers(student: Person, advisor: Option<Person>)
    ensures Verdict(student, advisor) == RETYPE <==>
      || (RegimeFloor(student, advisor) == RETYPE && !SudocLifts(student, advisor))
      || PreModernEra(student, advisor)
      || HasCredential(Lower(student.degreeType), RETYPE_CREDENTIAL)
    ensures Verdict(student, advisor) == SUSPECT <==>
      && Verdict(student, advisor) != RETYPE
      && ((RegimeFloor(student, advisor) == SUSPECT && !SudocLifts(student, advisor)) || BornAfter(student, advisor))
    ensures Verdict(student, advisor) == TRUST <==>
      && Verdict(student, advisor) != RETYPE && Verdict(student, advisor) != SUSPECT
      && (RegimeFloor(student, advisor) == TRUST || SudocLifts(student, advisor))
    ensures Rank(Verdict(student, advisor)) >= Rank(RegimeFloor(student, advisor)) || SudocLifts(student, advisor)
  {
  }

  /** The overrides that only lower a tier, one after another. */
  method Override(student: Person, band: Option<Band>, bornAfter: bool, regime: Tier, why: seq<Reason>)
    returns (tier: Tier, reasons: seq<Reason>)
    ensures tier == (
      if (band.Some? && band.value.hi < PREMODERN_BEFORE)
         || HasCredential(Lower(student.degreeType), RETYPE_CREDENTIAL) then RETYPE
      else if bornAfter && regime != RETYPE then SUSPECT
      else regime)
    ensures reasons
         == why + (if band.Some? && band.value.hi < PREMODERN_BEFORE then [PreModern] else [])
            + CredentialReason(Lower(student.degreeType), RETYPE_CREDENTIAL)
            + if bornAfter then [AdvisorBornAfter] else []
  {
    tier, reasons := regime, why;
    if band.Some? && band.value.hi < PREMODERN_BEFORE {
      tier, reasons := RETYPE, reasons + [PreModern];
    }
    var credential := RecordedCredential(Lower(student.degreeType));
    NamedReason(Lower(student.degreeType), credential);
    if credential.Some? {
      tier, reasons := RETYPE, reasons + [Credential(credential.value)];
    }
    if bornAfter {
      if tier != RETYPE {
        tier := Worse(tier, SUSPECT);
      }
      reasons := reasons + [AdvisorBornAfter];
    }
  }

  /** The regime's tier, lifted or overridden. */
  method ClassifyEdge(student: Person, advisor: Option<Person>) returns (tier: Tier, reasons: seq<Reason>)
    ensures tier == Verdict(student, advisor) && reasons == Reasons(student, advisor)
    ensures tier == RETYPE <==>
      || (RegimeFloor(student, advisor) == RETYPE && !SudocLifts(student, advisor))
      || PreModernEra(student, advisor)
      || HasCredential(Lower(student.degreeType), RETYPE_CREDENTIAL)
    ensures tier == SUSPECT <==>
      && tier != RETYPE
      && ((RegimeFloor(student, advisor) == SUSPECT && !SudocLifts(student, advisor)) || BornAfter(student, advisor))
    ensures tier == TRUST <==>
      && tier != RETYPE && tier != SUSPECT
      && (RegimeFloor(student, advisor) == TRUST || SudocLifts(student, advisor))
    ensures Rank(tier) >= Rank(RegimeFloor(student, advisor)) || SudocLifts(student, advisor)
  {
    var band := EdgeEra(student, advisor);
    var cc := DegreeCountry(student, advisor);
    if cc == Some(DE) && band.Some? && band.value.lo >= GDR_FROM && band.value.hi <= GDR_TO && student.gdrInstitution {
      cc := Some(DD);
    }
    tier, reasons := LiftedRegime(student, cc, band);
    tier, reasons := Override(student, band, BornAfter(student, advisor), tier, reasons);
    VerdictTiers(student, advisor);
  }

  /** No positive reason to doubt, and every year of the era band is trusted: a band that starts in
      range, a listed country, and TRUST for each of its years. */
  ghost predicate UnambiguousEra(student: Person, advisor: Option<Person>) {
    var cc, band := RegimeCountry(student, advisor), EdgeEra(student, advisor);
    && cc.Some? && band.Some? && !cc.value.Unlisted?
    && band.value.hi >= 0 && band.value.lo < INF
    && forall y :: YearIn(y, band.value) && InRange(y) ==> YearTier(Rows(cc.value), y) == Some(TRUST)
  }

  /** The regime alone trusts an edge exactly when every year its era band may mean is trusted. */
  lemma {:induction false} FloorTrustsIff(student: Person, advisor: Option<Person>)
    ensures RegimeFloor(student, advisor) == TRUST <==> UnambiguousEra(student, advisor)
  {
    var cc, band := RegimeCountry(student, advisor), EdgeEra(student, advisor);
    if cc.Some? && band.Some? {
      EveryRowTiles(cc.value);
      if !cc.value.Unlisted? {
        WindowsStandForYears(Rows(cc.value), band.value);
        if UnambiguousEra(student, advisor) {
          var y :| YearIn(y, band.value) && InRange(y)
            && YearTier(Rows(cc.value), y) == Some(WorstTouched(Rows(cc.value), band.value).value);
        }
      }
    }
  }

  /** A TRUST verdict means what the model's documentation says of it. */
  method TrustedEdge(student: Person, advisor: Option<Person>) returns (trusted: bool)
    ensures trusted <==>
      && (UnambiguousEra(student, advisor) || SudocLifts(student, advisor))
      && !PreModernEra(student, advisor)
      && !HasCredential(Lower(student.degreeType), RETYPE_CREDENTIAL)
      && !BornAfter(student, advisor)
  {
    var tier, _ := ClassifyEdge(student, advisor);
    FloorTrustsIff(student, advisor);
    trusted := tier == TRUST;
  }
}
