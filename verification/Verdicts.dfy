/** What decides a vetting verdict, in terms of the two records alone: where the doctorate was taken, when, and what
    the regime table says of each year. */
module Verdicts {
  import opened Options
  import opened Regime
  import opened Strings
  import opened VettingRisk

  function Countries(p: Option<Person>): seq<Country> {
    match p
    case None => []
    case Some(person) => person.degreeCountries
  }

  // ---- Where ----

  /** The advisor shares degree country number `i` of the student. */
  predicate SharedAt(student: Person, advisor: Option<Person>, i: nat) {
    i < |student.degreeCountries| && student.degreeCountries[i] in Countries(advisor)
  }

  /** Number `i` is the only degree country that the advisor shares. */
  ghost predicate OnlyShared(student: Person, advisor: Option<Person>, i: nat) {
    SharedAt(student, advisor, i) && forall j :: SharedAt(student, advisor, j) ==> j == i
  }

  lemma {:induction false} OverlapIs(ccs: seq<Country>, others: seq<Country>)
    ensures |Overlap(ccs, others)| == 0 <==> forall i :: 0 <= i < |ccs| ==> ccs[i] !in others
    ensures forall i :: 0 <= i < |ccs| && ccs[i] in others
                          && (forall j :: 0 <= j < |ccs| && ccs[j] in others ==> j == i)
              ==> Overlap(ccs, others) == [ccs[i]]
    ensures |Overlap(ccs, others)| == 1
        ==> exists i :: 0 <= i < |ccs| && ccs[i] in others && forall j :: 0 <= j < |ccs| && ccs[j] in others ==> j == i
  {
    if ccs != [] {
      var rest := ccs[1..];
      OverlapIs(rest, others);
      assert forall i :: 0 <= i < |rest| ==> rest[i] == ccs[i + 1];
      assert forall j :: 0 < j < |ccs| ==> ccs[j] == rest[j - 1];
    }
  }

  /** The doctorate counts as taken in `c`: the only degree country, or of several the only one that the advisor
      shares; without any, the country of citizenship, or else the first of the advisor. */
  ghost predicate TakenIn(student: Person, advisor: Option<Person>, c: Country) {
    var ccs := student.degreeCountries;
    if |ccs| == 0 then
      student.countryCode == Some(c)
      || (student.countryCode == None && |Countries(advisor)| > 0 && Countries(advisor)[0] == c)
    else if |ccs| == 1 then ccs[0] == c
    else exists i :: 0 <= i < |ccs| && ccs[i] == c && OnlyShared(student, advisor, i)
  }

  lemma {:induction false} SharedIs(student: Person, advisor: Option<Person>, c: Country)
    ensures (exists i :: 0 <= i < |student.degreeCountries| && student.degreeCountries[i] == c
                         && OnlyShared(student, advisor, i))
       <==> Overlap(student.degreeCountries, Countries(advisor)) == [c]
  {
    var ccs, others := student.degreeCountries, Countries(advisor);
    OverlapIs(ccs, others);
    if i :| 0 <= i < |ccs| && ccs[i] == c && OnlyShared(student, advisor, i) {
      assert forall j :: 0 <= j < |ccs| && ccs[j] in others ==> SharedAt(student, advisor, j);
    }
    if Overlap(ccs, others) == [c] {
      var i :| 0 <= i < |ccs| && ccs[i] in others && forall j :: 0 <= j < |ccs| && ccs[j] in others ==> j == i;
      assert OnlyShared(student, advisor, i);
    }
  }

  lemma {:induction false} TakenInIs(student: Person, advisor: Option<Person>, c: Country)
    ensures TakenIn(student, advisor, c) <==> DegreeCountry(student, advisor) == Some(c)
  {
    SharedIs(student, advisor, c);
  }

  // ---- When ----

  /** The record dates the doctorate: by the defence, else the thesis, else 23 to 40 years after birth. */
  predicate Dates(p: Person, lo: int, hi: int) {
    match (p.defenseYear, p.thesisYear, p.birthYear)
    case (Some(y), _, _) => lo == y && hi == y
    case (None, Some(y), _) => lo == y && hi == y
    case (None, None, Some(b)) => lo == b + 23 && hi == b + 40
    case _ => false
  }

  predicate Undated(p: Person) {
    p.defenseYear.None? && p.thesisYear.None? && p.birthYear.None?
  }

  /** It was taken within these years: the student's, or for an undated student 20 to 40 years after the advisor's. */
  predicate TakenDuring(student: Person, advisor: Option<Person>, lo: int, hi: int) {
    if Undated(student) then advisor.Some? && Dates(advisor.value, lo - 20, hi - 40) else Dates(student, lo, hi)
  }

  lemma {:induction false} TakenDuringIs(student: Person, advisor: Option<Person>, lo: int, hi: int)
    ensures TakenDuring(student, advisor, lo, hi) <==> EdgeEra(student, advisor) == Some(Band(lo, hi))
  {
  }

  // ---- The verdict ----

  /** The doctorate falls under the regime of `c`: a German one from an East German institution, within the years
      1949 to 1990, under that of the GDR. */
  ghost predicate Under(student: Person, advisor: Option<Person>, c: Country, lo: int, hi: int) {
    && TakenDuring(student, advisor, lo, hi)
    && if student.gdrInstitution && 1949 <= lo && hi <= 1990 then
         (c == DD && TakenIn(student, advisor, DE)) || (c != DE && TakenIn(student, advisor, c))
       else TakenIn(student, advisor, c)
  }

  lemma {:induction false} UnderIs(student: Person, advisor: Option<Person>, c: Country, lo: int, hi: int)
    ensures Under(student, advisor, c, lo, hi)
       <==> EdgeEra(student, advisor) == Some(Band(lo, hi)) && RegimeCountry(student, advisor) == Some(c)
  {
    TakenDuringIs(student, advisor, lo, hi);
    TakenInIs(student, advisor, c);
    TakenInIs(student, advisor, DE);
  }

  predicate TableYear(y: int) {
    0 <= y < 9999
  }

  /** Some year of the table that the doctorate may have been taken in has the tier. */
  ghost predicate SomeYear(rows: seq<Window>, lo: int, hi: int, tier: Tier) {
    exists y :: lo <= y <= hi && TableYear(y) && YearTier(rows, y) == Some(tier)
  }

  /** There are such years, and all of them are trusted. */
  ghost predicate AllTrusted(rows: seq<Window>, lo: int, hi: int) {
    rows != [] && hi >= 0 && lo < 9999
    && forall y :: lo <= y <= hi && TableYear(y) ==> YearTier(rows, y) == Some(TRUST)
  }

  lemma {:induction false} WorstIs(rows: seq<Window>, lo: int, hi: int)
    requires lo <= hi && Tiles(rows)
    ensures var worst := WorstTouched(rows, Band(lo, hi));
            && (worst == Some(TRUST) <==> AllTrusted(rows, lo, hi))
            && (worst == Some(RETYPE) <==> SomeYear(rows, lo, hi, RETYPE))
            && (worst == Some(SUSPECT) <==> SomeYear(rows, lo, hi, SUSPECT) && !SomeYear(rows, lo, hi, RETYPE))
  {
    var band := Band(lo, hi);
    WindowsStandForYears(rows, band);
    if WorstTouched(rows, band).Some? {
      var y :| YearIn(y, band) && InRange(y) && YearTier(rows, y) == Some(WorstTouched(rows, band).value);
      assert TableYear(y);
    }
  }

  lemma {:induction false} FloorIs(c: Country, lo: int, hi: int)
    requires lo <= hi
    ensures Floor(Some(c), Some(Band(lo, hi))) == TRUST <==> AllTrusted(Rows(c), lo, hi)
    ensures Floor(Some(c), Some(Band(lo, hi))) == RETYPE <==> SomeYear(Rows(c), lo, hi, RETYPE)
    ensures Floor(Some(c), Some(Band(lo, hi))) == SUSPECT
       <==> SomeYear(Rows(c), lo, hi, SUSPECT) && !SomeYear(Rows(c), lo, hi, RETYPE)
  {
    EveryRowTiles(c);
    if Rows(c) != [] {
      WorstIs(Rows(c), lo, hi);
    }
  }

  /** The degree names a credential that is not a first doctorate. */
  predicate OtherCredential(student: Person) {
    exists i :: 0 <= i < |RETYPE_CREDENTIAL| && Contains(Lower(student.degreeType), RETYPE_CREDENTIAL[i].0)
  }

  predicate Younger(student: Person, advisor: Option<Person>) {
    match (student.birthYear, advisor)
    case (Some(b), Some(a)) => a.birthYear.Some? && b < a.birthYear.value
    case _ => false
  }

  /** One French doctorate before 1985 on record, for a doctorate that began between 1810 and 1984. */
  predicate Registered(student: Person, c: Country, lo: int) {
    c == FR && student.sudocPre1985Count == Some(1) && 1810 <= lo <= 1984
  }

  lemma {:induction false} EraSpans(student: Person, advisor: Option<Person>, lo: int, hi: int)
    requires TakenDuring(student, advisor, lo, hi)
    ensures lo <= hi
  {
  }

  /** The verdict of a doctorate taken under `c` within the years `lo` to `hi`. */
  lemma {:induction false} DatedVerdict(student: Person, advisor: Option<Person>, c: Country, lo: int, hi: int)
    requires Under(student, advisor, c, lo, hi)
    ensures Verdict(student, advisor) == RETYPE
       <==> hi < 1810 || OtherCredential(student) || (SomeYear(Rows(c), lo, hi, RETYPE) && !Registered(student, c, lo))
    ensures Verdict(student, advisor) == SUSPECT
       <==> Verdict(student, advisor) != RETYPE
            && (Younger(student, advisor) || (SomeYear(Rows(c), lo, hi, SUSPECT) && !Registered(student, c, lo)))
    ensures Verdict(student, advisor) == TRUST
       <==> Verdict(student, advisor) != RETYPE && Verdict(student, advisor) != SUSPECT
            && (AllTrusted(Rows(c), lo, hi) || Registered(student, c, lo))
  {
    UnderIs(student, advisor, c, lo, hi);
    EraSpans(student, advisor, lo, hi);
    FloorIs(c, lo, hi);
  }

  /** Without a country, or without years, an edge is never trusted. */
  lemma {:induction false} UnknownIsNeverTrusted(student: Person, advisor: Option<Person>)
    requires (forall c :: !TakenIn(student, advisor, c)) || (forall lo, hi :: !TakenDuring(student, advisor, lo, hi))
    ensures Verdict(student, advisor) != TRUST
  {
    if forall c :: !TakenIn(student, advisor, c) {
      if DegreeCountry(student, advisor).Some? {
        TakenInIs(student, advisor, DegreeCountry(student, advisor).value);
      }
    } else if EdgeEra(student, advisor).Some? {
      var band := EdgeEra(student, advisor).value;
      TakenDuringIs(student, advisor, band.lo, band.hi);
    }
  }

  // ---- Never a guess ----

  /** With several degree countries of which the advisor shares none, or more than one, the edge is never trusted. */
  lemma {:induction false} AmbiguousIsNeverTrusted(student: Person, advisor: Option<Person>)
    requires |student.degreeCountries| > 1 && forall i :: !OnlyShared(student, advisor, i)
    ensures Verdict(student, advisor) != TRUST
  {
    forall c
      ensures !TakenIn(student, advisor, c)
    {
    }
    UnknownIsNeverTrusted(student, advisor);
  }

  lemma {:induction false} SameCountryAndYears(student: Person, other: Person, advisor: Option<Person>)
    requires DegreeCountry(student, advisor) == DegreeCountry(other, advisor)
    requires EdgeEra(student, advisor) == EdgeEra(other, advisor)
    requires Younger(student, advisor) <==> Younger(other, advisor)
    requires student.gdrInstitution == other.gdrInstitution && student.degreeType == other.degreeType
    requires student.sudocPre1985Count == other.sudocPre1985Count
    ensures Verdict(student, advisor) == Verdict(other, advisor)
  {
  }

  /** With exactly one shared, the verdict is that of a student with that country alone. */
  lemma {:induction false} SharedCountryDecides(student: Person, advisor: Option<Person>, i: nat)
    requires OnlyShared(student, advisor, i)
    ensures Verdict(student, advisor) == Verdict(student.(degreeCountries := [student.degreeCountries[i]]), advisor)
  {
    TakenInIs(student, advisor, student.degreeCountries[i]);
    SameCountryAndYears(student, student.(degreeCountries := [student.degreeCountries[i]]), advisor);
  }

  /** Where there is a degree country, citizenship does not matter; where there is none, it stands for one. */
  lemma {:induction false} CitizenshipStandsIn(student: Person, advisor: Option<Person>, c: Country)
    ensures student.degreeCountries != [] ==>
              Verdict(student, advisor) == Verdict(student.(countryCode := Some(c)), advisor)
    ensures student.degreeCountries == [] && student.countryCode == Some(c) ==>
              Verdict(student, advisor) == Verdict(student.(degreeCountries := [c]), advisor)
  {
    if student.degreeCountries != [] {
      SameCountryAndYears(student, student.(countryCode := Some(c)), advisor);
    } else if student.countryCode == Some(c) {
      SameCountryAndYears(student, student.(degreeCountries := [c]), advisor);
    }
  }

  /** A recorded defence year decides, whatever the thesis and birth years say of the doctorate. */
  lemma {:induction false} DefenceYearDecides(student: Person, advisor: Option<Person>, thesisYear: Option<int>,
                                              birthYear: Option<int>)
    requires student.defenseYear.Some?
    ensures var other := student.(thesisYear := thesisYear, birthYear := birthYear);
            (Younger(student, advisor) <==> Younger(other, advisor)) ==>
              Verdict(student, advisor) == Verdict(other, advisor)
  {
    var other := student.(thesisYear := thesisYear, birthYear := birthYear);
    if Younger(student, advisor) <==> Younger(other, advisor) {
      SameCountryAndYears(student, other, advisor);
    }
  }

  /** An undated student has the verdict of the years one generation after the advisor's. */
  lemma {:induction false} NextGeneration(student: Person, advisor: Person, c: Country, lo: int, hi: int)
    requires Undated(student) && Dates(advisor, lo, hi)
    requires student.degreeCountries == [c] && c != DE
    ensures Verdict(student, Some(advisor)) == VerdictFor(student, Some(c), Some(Band(lo + 20, hi + 40)), false)
  {
    TakenDuringIs(student, Some(advisor), lo + 20, hi + 40);
  }

  // ---- The reasons ----

  lemma {:induction false} DoubtsWithin(cc: Country, rows: seq<Window>, band: Band, r: Reason)
    ensures r in Doubts(cc, rows, band)
       <==> r.InWindow? && r.cc == cc && r.window in rows && r.window.tier != TRUST
            && band.lo < r.window.to && r.window.from <= band.hi
  {
    if rows != [] {
      var init, last := rows[..|rows| - 1], rows[|rows| - 1];
      DoubtsWithin(cc, init, band, r);
      assert rows == init + [last];
    }
  }

  lemma {:induction false} WindowReasons(cc: Country, rows: seq<Window>, band: Band, r: Reason)
    requires Tiles(rows) && band.lo <= band.hi
    ensures WorstTouched(rows, band) == None <==> band.hi < 0 || band.lo >= 9999
    ensures WorstTouched(rows, band) == None ==> Doubts(cc, rows, band) == []
  {
    WindowsStandForYears(rows, band);
    WorstTouchedIs(rows, band);
    if WorstTouched(rows, band) == None && Doubts(cc, rows, band) != [] {
      DoubtsWithin(cc, rows, band, Doubts(cc, rows, band)[0]);
    }
  }

  /** What the table gives as reasons. */
  lemma {:induction false} TableReasons(cc: Option<Country>, band: Option<Band>, r: Reason)
    requires band.Some? ==> band.value.lo <= band.value.hi
    ensures r in RegimeReasons(cc, band) <==>
      match r
      case CountryUnknown => cc == None
      case RegimeUnknown(c) => cc == Some(c) && Rows(c) == []
      case EraUnknown => cc.Some? && Rows(cc.value) != [] && band == None
      case OutOfRange(c) => cc == Some(c) && Rows(c) != [] && band.Some? && (band.value.hi < 0 || band.value.lo >= 9999)
      case InWindow(c, w) => cc == Some(c) && band.Some? && w in Rows(c) && w.tier != TRUST
                             && band.value.lo < w.to && w.from <= band.value.hi
      case _ => false
  {
    if cc.Some? && band.Some? && Rows(cc.value) != [] {
      EveryRowTiles(cc.value);
      WindowReasons(cc.value, Rows(cc.value), band.value, r);
      DoubtsWithin(cc.value, Rows(cc.value), band.value, r);
    }
  }

  /** The credential that counts: the first listed one that the degree names. */
  predicate FirstCredential(student: Person, kind: string) {
    exists i :: 0 <= i < |RETYPE_CREDENTIAL| && RETYPE_CREDENTIAL[i].1 == kind
                && Contains(Lower(student.degreeType), RETYPE_CREDENTIAL[i].0)
                && forall j :: 0 <= j < i ==> !Contains(Lower(student.degreeType), RETYPE_CREDENTIAL[j].0)
  }

  lemma {:induction false} CredentialIn(degree: string, table: Credentials, r: Reason)
    ensures r in CredentialReason(degree, table)
       <==> r.Credential? && exists i :: 0 <= i < |table| && table[i].1 == r.kind && Contains(degree, table[i].0)
                                         && forall j :: 0 <= j < i ==> !Contains(degree, table[j].0)
  {
    if table != [] && !Contains(degree, table[0].0) {
      var rest := table[1..];
      CredentialIn(degree, rest, r);
      assert forall i :: 0 <= i < |rest| ==> rest[i] == table[i + 1];
      if r.Credential? {
        if i :| 0 <= i < |rest| && rest[i].1 == r.kind && Contains(degree, rest[i].0)
                && forall j :: 0 <= j < i ==> !Contains(degree, rest[j].0) {
          assert table[i + 1].1 == r.kind && forall j :: 0 <= j < i + 1 ==> !Contains(degree, table[j].0);
        }
        if i :| 0 <= i < |table| && table[i].1 == r.kind && Contains(degree, table[i].0)
                && forall j :: 0 <= j < i ==> !Contains(degree, table[j].0) {
          assert i > 0 && rest[i - 1] == table[i];
        }
      }
    }
  }

  /** Which reasons a verdict gives. */
  ghost predicate GivenAs(student: Person, advisor: Option<Person>, r: Reason) {
    match r
    case CountryUnknown => forall c :: !TakenIn(student, advisor, c)
    case RegimeUnknown(c) => c.Unlisted? && TakenIn(student, advisor, c)
    case EraUnknown => (exists c :: TakenIn(student, advisor, c) && !c.Unlisted?)
                       && forall lo, hi :: !TakenDuring(student, advisor, lo, hi)
    case OutOfRange(c) => !c.Unlisted? && exists lo, hi :: Under(student, advisor, c, lo, hi) && (hi < 0 || lo >= 9999)
    case InWindow(c, w) => w in Rows(c) && w.tier != TRUST
                           && exists lo, hi :: Under(student, advisor, c, lo, hi) && lo < w.to && w.from <= hi
                                               && !Registered(student, c, lo)
    case SudocSingle(year) => year == student.sudocPre1985Year
                              && exists c, lo, hi :: Under(student, advisor, c, lo, hi) && Registered(student, c, lo)
    case SudocMulti(n) => n > 1 && student.sudocPre1985Count == Some(n) && TakenIn(student, advisor, FR)
    case PreModern => exists lo, hi :: TakenDuring(student, advisor, lo, hi) && hi < 1810
    case Credential(kind) => FirstCredential(student, kind)
    case AdvisorBornAfter => Younger(student, advisor)
  }

  lemma {:induction false} LiftedIn(student: Person, cc: Option<Country>, band: Option<Band>, r: Reason)
    ensures r in LiftedReasons(student, cc, band)
       <==> (r in RegimeReasons(cc, band) && !Lifts(student, cc, band))
            || (Lifts(student, cc, band) && r == SudocSingle(student.sudocPre1985Year))
            || (cc == Some(FR) && r.SudocMulti? && student.sudocPre1985Count == Some(r.count) && r.count > 1)
  {
  }

  lemma {:induction false} EraOf(student: Person, advisor: Option<Person>)
    ensures EdgeEra(student, advisor) == None <==> forall lo, hi :: !TakenDuring(student, advisor, lo, hi)
    ensures EdgeEra(student, advisor).Some? ==>
              TakenDuring(student, advisor, EdgeEra(student, advisor).value.lo, EdgeEra(student, advisor).value.hi)
  {
    forall lo, hi
      ensures TakenDuring(student, advisor, lo, hi) <==> EdgeEra(student, advisor) == Some(Band(lo, hi))
    {
      TakenDuringIs(student, advisor, lo, hi);
    }
  }

  lemma {:induction false} CountryOf(student: Person, advisor: Option<Person>)
    ensures DegreeCountry(student, advisor) == None <==> forall c :: !TakenIn(student, advisor, c)
    ensures forall c :: TakenIn(student, advisor, c) <==> DegreeCountry(student, advisor) == Some(c)
  {
    forall c
      ensures TakenIn(student, advisor, c) <==> DegreeCountry(student, advisor) == Some(c)
    {
      TakenInIs(student, advisor, c);
    }
  }

  lemma {:induction false} RegimeOf(student: Person, advisor: Option<Person>)
    ensures forall c, lo, hi :: Under(student, advisor, c, lo, hi)
              <==> EdgeEra(student, advisor) == Some(Band(lo, hi)) && RegimeCountry(student, advisor) == Some(c)
  {
    forall c, lo, hi
      ensures Under(student, advisor, c, lo, hi)
         <==> EdgeEra(student, advisor) == Some(Band(lo, hi)) && RegimeCountry(student, advisor) == Some(c)
    {
      UnderIs(student, advisor, c, lo, hi);
    }
  }

  /** Routing to the GDR neither makes a country known nor takes it off the table. */
  lemma {:induction false} RoutedIs(student: Person, advisor: Option<Person>)
    ensures RegimeCountry(student, advisor) == None <==> DegreeCountry(student, advisor) == None
    ensures forall c: Country :: c.Unlisted? ==>
              (RegimeCountry(student, advisor) == Some(c) <==> DegreeCountry(student, advisor) == Some(c))
  {
  }

  lemma {:induction false} CountryReasonGiven(student: Person, advisor: Option<Person>, r: Reason)
    requires r.CountryUnknown? || r.RegimeUnknown? || r.EraUnknown?
    ensures r in RegimeReasons(RegimeCountry(student, advisor), EdgeEra(student, advisor))
       <==> GivenAs(student, advisor, r)
  {
    TableReasons(RegimeCountry(student, advisor), EdgeEra(student, advisor), r);
    RoutedIs(student, advisor);
    CountryOf(student, advisor);
    if r.EraUnknown? {
      EraOf(student, advisor);
    }
    if RegimeCountry(student, advisor).Some? {
      EveryRowTiles(RegimeCountry(student, advisor).value);
    }
  }

  lemma {:induction false} DatedReasonGiven(student: Person, advisor: Option<Person>, r: Reason)
    requires r.OutOfRange? || r.InWindow?
    ensures r in RegimeReasons(RegimeCountry(student, advisor), EdgeEra(student, advisor))
            && !Lifts(student, RegimeCountry(student, advisor), EdgeEra(student, advisor))
       <==> GivenAs(student, advisor, r)
  {
    TableReasons(RegimeCountry(student, advisor), EdgeEra(student, advisor), r);
    RegimeOf(student, advisor);
    EveryRowTiles(r.cc);
  }

  lemma {:induction false} RegimeReasonGiven(student: Person, advisor: Option<Person>, r: Reason)
    requires r.CountryUnknown? || r.RegimeUnknown? || r.EraUnknown? || r.OutOfRange? || r.InWindow?
    ensures r in LiftedReasons(student, RegimeCountry(student, advisor), EdgeEra(student, advisor))
       <==> GivenAs(student, advisor, r)
  {
    var cc, band := RegimeCountry(student, advisor), EdgeEra(student, advisor);
    LiftedIn(student, cc, band, r);
    if r.OutOfRange? || r.InWindow? {
      DatedReasonGiven(student, advisor, r);
    } else {
      CountryReasonGiven(student, advisor, r);
      TableReasons(cc, band, r);
    }
  }

  lemma {:induction false} RegistryReasonGiven(student: Person, advisor: Option<Person>, r: Reason)
    requires r.SudocSingle? || r.SudocMulti?
    ensures r in LiftedReasons(student, RegimeCountry(student, advisor), EdgeEra(student, advisor))
       <==> GivenAs(student, advisor, r)
  {
    var cc, band := RegimeCountry(student, advisor), EdgeEra(student, advisor);
    LiftedIn(student, cc, band, r);
    TableReasons(cc, band, r);
    CountryOf(student, advisor);
    RegimeOf(student, advisor);
  }

  /** A verdict gives exactly these reasons. */
  lemma {:induction false} ReasonsAre(student: Person, advisor: Option<Person>, r: Reason)
    ensures r in Reasons(student, advisor) <==> GivenAs(student, advisor, r)
  {
    var cc, band := RegimeCountry(student, advisor), EdgeEra(student, advisor);
    LiftedIn(student, cc, band, r);
    TableReasons(cc, band, r);
    CredentialIn(Lower(student.degreeType), RETYPE_CREDENTIAL, r);
    if r.SudocSingle? || r.SudocMulti? {
      RegistryReasonGiven(student, advisor, r);
    } else if r.PreModern? {
      EraOf(student, advisor);
    } else if !r.Credential? && !r.AdvisorBornAfter? {
      RegimeReasonGiven(student, advisor, r);
    }
  }
}
