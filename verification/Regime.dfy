/** Doctoral regimes by country and year (`REGIME` and `_regime_tier` of the vetting model): a loop over
    the windows that an era band overlaps stands for a worst case over every year of the band. */
module Regime {
  import opened Options

  datatype Tier = TRUST | REVIEW | SUSPECT | RETYPE

  datatype Country =
    | US | CA | AU | NZ | IE | GB | DE | AT | CH | DD | SU | RU
    | UA | BY | PL | CZ | SK | HU | RO | BG | YU | RS | HR | SI
    | FR | IT | GR | BE | NL | ES | PT | NO | DK | SE | FI | JP
    | IL | IR | CN | KR | MX | AR | EE | BR | IN | ZA
    | Unlisted(code: string)

  /** Years `from` up to but not including `to`. */
  datatype Window = Window(from: int, to: int, tier: Tier)

  const INF: int := 9999

  /** The era of a doctorate, both ends included. */
  datatype Band = Band(lo: int, hi: int)

  /** The regime table; a country without a row has none. */
  function Rows(cc: Country): seq<Window> {
    match cc
    case US => [Window(0, 1861, SUSPECT), Window(1861, 1900, REVIEW), Window(1900, INF, TRUST)]
    case CA => [Window(0, 1900, REVIEW), Window(1900, INF, TRUST)]
    case AU => [Window(0, 1948, REVIEW), Window(1948, INF, TRUST)]
    case NZ => [Window(0, 1948, REVIEW), Window(1948, INF, TRUST)]
    case IE => [Window(0, 1920, REVIEW), Window(1920, INF, TRUST)]
    case GB => [Window(0, 1921, RETYPE), Window(1921, INF, TRUST)]
    case DE => [Window(0, 1810, SUSPECT), Window(1810, 1945, REVIEW), Window(1945, INF, TRUST)]
    case AT => [Window(0, 1810, SUSPECT), Window(1810, 1945, REVIEW), Window(1945, INF, TRUST)]
    case CH => [Window(0, 1810, SUSPECT), Window(1810, INF, TRUST)]
    case DD => [Window(0, 1810, SUSPECT), Window(1810, 1969, REVIEW), Window(1969, 1991, REVIEW),
        Window(1991, INF, TRUST)]
    case SU => [Window(0, INF, REVIEW)]
    case RU => [Window(0, 1991, REVIEW), Window(1991, INF, REVIEW)]
    case UA => [Window(0, 2014, REVIEW), Window(2014, INF, REVIEW)]
    case BY => [Window(0, INF, REVIEW)]
    case PL => [Window(0, INF, REVIEW)]
    case CZ => [Window(0, INF, REVIEW)]
    case SK => [Window(0, INF, REVIEW)]
    case HU => [Window(0, INF, REVIEW)]
    case RO => [Window(0, INF, REVIEW)]
    case BG => [Window(0, INF, REVIEW)]
    case YU => [Window(0, INF, REVIEW)]
    case RS => [Window(0, INF, REVIEW)]
    case HR => [Window(0, INF, REVIEW)]
    case SI => [Window(0, INF, REVIEW)]
    case FR => [Window(0, 1810, SUSPECT), Window(1810, 1985, REVIEW), Window(1985, INF, TRUST)]
    case IT => [Window(0, 1983, RETYPE), Window(1983, INF, TRUST)]
    case GR => [Window(0, 1900, SUSPECT), Window(1900, 1983, REVIEW), Window(1983, INF, TRUST)]
    case BE => [Window(0, 1930, REVIEW), Window(1930, 2010, REVIEW), Window(2010, INF, TRUST)]
    case NL => [Window(0, 1900, REVIEW), Window(1900, INF, TRUST)]
    case ES => [Window(0, 1954, REVIEW), Window(1954, INF, TRUST)]
    case PT => [Window(0, INF, REVIEW)]
    case NO => [Window(0, INF, REVIEW)]
    case DK => [Window(0, INF, REVIEW)]
    case SE => [Window(0, 1970, REVIEW), Window(1970, INF, TRUST)]
    case FI => [Window(0, 1970, REVIEW), Window(1970, INF, TRUST)]
    case JP => [Window(0, INF, REVIEW)]
    case IL => [Window(0, 1936, REVIEW), Window(1936, INF, TRUST)]
    case IR => [Window(0, 1984, REVIEW), Window(1984, INF, TRUST)]
    case CN => [Window(0, 1983, REVIEW), Window(1983, INF, TRUST)]
    case KR => [Window(0, 1980, REVIEW), Window(1980, INF, TRUST)]
    case MX => [Window(0, 1968, REVIEW), Window(1968, INF, TRUST)]
    case AR => [Window(0, 1995, REVIEW), Window(1995, INF, TRUST)]
    case EE => [Window(0, 1995, REVIEW), Window(1995, INF, TRUST)]
    case BR => [Window(0, 1965, REVIEW), Window(1965, INF, TRUST)]
    case IN => [Window(0, 1956, REVIEW), Window(1956, INF, TRUST)]
    case ZA => [Window(0, 1922, REVIEW), Window(1922, INF, TRUST)]
    case Unlisted(_) => []
  }

  datatype Reason =
    | CountryUnknown
    | RegimeUnknown(cc: Country)
    | EraUnknown
    | OutOfRange(cc: Country)
    | InWindow(cc: Country, window: Window)
    | SudocSingle(year: Option<int>)
    | SudocMulti(count: int)
    | PreModern
    | Credential(kind: string)
    | AdvisorBornAfter

  function Rank(t: Tier): nat {
    match t
    case TRUST => 0
    case REVIEW => 1
    case SUSPECT => 2
    case RETYPE => 3
  }

  /** Position in the source's order, which leaves RETYPE out. */
  function Order(t: Tier): nat {
    if t == RETYPE then 0 else Rank(t)
  }

  function Worse(a: Tier, b: Tier): Tier {
    if Order(a) >= Order(b) then a else b
  }

  /** The band overlaps the window. */
  predicate Touches(w: Window, band: Band) {
    band.lo < w.to && band.hi >= w.from
  }

  /** The windows that are not trusted and that the band touches, in table order. */
  function Doubts(cc: Country, rows: seq<Window>, band: Band): seq<Reason> {
    if rows == [] then []
    else
      var last := rows[|rows| - 1];
      Doubts(cc, rows[..|rows| - 1], band)
      + if Touches(last, band) && last.tier != TRUST then [InWindow(cc, last)] else []
  }

  /** The worst tier among touched windows, or none when no window is touched. */
  function WorstTouched(rows: seq<Window>, band: Band): Option<Tier> {
    if rows == [] then None
    else
      var before, last := WorstTouched(rows[..|rows| - 1], band), rows[|rows| - 1];
      if !Touches(last, band) then before
      else if before == None || Rank(before.value) < Rank(last.tier) then Some(last.tier)
      else before
  }

  /** What the table says about a country and a band. */
  function Floor(cc: Option<Country>, band: Option<Band>): Tier {
    if cc == None || band == None then REVIEW
    else
      var worst := WorstTouched(Rows(cc.value), band.value);
      if worst == None then REVIEW else worst.value
  }

  /** `worst` is the highest ranked element of `tiers`. */
  ghost predicate Summarises(tiers: seq<Tier>, worst: Option<Tier>) {
    if worst == None then tiers == []
    else worst.value in tiers && forall k :: 0 <= k < |tiers| ==> Rank(tiers[k]) <= Rank(worst.value)
  }

  /** RETYPE if it is among them, else the fold of `Worse` from TRUST. */
  method WorstOf(tiers: seq<Tier>) returns (tier: Tier)
    requires tiers != []
    ensures Summarises(tiers, Some(tier))
  {
    if RETYPE in tiers {
      return RETYPE;
    }
    tier := TRUST;
    for i := 0 to |tiers|
      invariant tier != RETYPE
      invariant forall k :: 0 <= k < i ==> Rank(tiers[k]) <= Rank(tier)
      invariant if tier == TRUST then forall k :: 0 <= k < i ==> tiers[k] == TRUST else tier in tiers[..i]
    {
      tier := Worse(tier, tiers[i]);
    }
    assert tiers[..|tiers|] == tiers && tiers[0] in tiers;
  }

  /** Why the table does not affirm, in table order, or why it has no answer. */
  function RegimeReasons(cc: Option<Country>, band: Option<Band>): seq<Reason> {
    if cc == None then [CountryUnknown]
    else if Rows(cc.value) == [] then [RegimeUnknown(cc.value)]
    else if band == None then [EraUnknown]
    else if WorstTouched(Rows(cc.value), band.value) == None then [OutOfRange(cc.value)]
    else Doubts(cc.value, Rows(cc.value), band.value)
  }

  /** The source's two passes: collect the touched tiers, then RETYPE if present, else fold `Worse`. */
  method RegimeTier(cc: Option<Country>, band: Option<Band>) returns (tier: Tier, reasons: seq<Reason>)
    ensures tier == Floor(cc, band) && reasons == RegimeReasons(cc, band)
  {
    if cc == None {
      return REVIEW, [CountryUnknown];
    }
    var rows := Rows(cc.value);
    if rows == [] {
      return REVIEW, [RegimeUnknown(cc.value)];
    }
    if band == None {
      return REVIEW, [EraUnknown];
    }
    var tiers: seq<Tier> := [];
    reasons := [];
    for i := 0 to |rows|
      invariant reasons == Doubts(cc.value, rows[..i], band.value)
      invariant Summarises(tiers, WorstTouched(rows[..i], band.value))
    {
      assert rows[..i + 1][..i] == rows[..i];
      if Touches(rows[i], band.value) {
        tiers := tiers + [rows[i].tier];
        if rows[i].tier != TRUST {
          reasons := reasons + [InWindow(cc.value, rows[i])];
        }
      }
    }
    assert rows[..|rows|] == rows;
    if tiers == [] {
      return REVIEW, [OutOfRange(cc.value)];
    }
    tier := WorstOf(tiers);
  }

  // ---- Year by year ----

  /** The windows cover every year from 0 up to INF, once. */
  predicate Tiles(rows: seq<Window>) {
    && rows != [] && rows[0].from == 0 && rows[|rows| - 1].to == INF
    && (forall i :: 0 <= i < |rows| ==> rows[i].from < rows[i].to)
    && forall i, j :: 0 <= i && j == i + 1 < |rows| ==> rows[i].to == rows[j].from
  }

  /** Every row of the table is such a tiling. */
  lemma EveryRowTiles(cc: Country)
    ensures Rows(cc) == [] || Tiles(Rows(cc))
    ensures Rows(cc) == [] <==> cc.Unlisted?
  {
  }

  predicate InRange(y: int) {
    0 <= y < INF
  }

  /** The tier of the window that year `y` falls in. */
  function YearTier(rows: seq<Window>, y: int): Option<Tier> {
    if rows == [] then None
    else if rows[0].from <= y < rows[0].to then Some(rows[0].tier)
    else YearTier(rows[1..], y)
  }

  predicate YearIn(y: int, band: Band) {
    band.lo <= y <= band.hi
  }

  lemma {:induction false} WindowsAscend(rows: seq<Window>, i: nat, j: nat)
    requires Tiles(rows) && i < j < |rows|
    ensures rows[i].to <= rows[j].from
  {
    if i + 1 < j {
      WindowsAscend(rows, i, j - 1);
    }
  }

  lemma {:induction false} YearTierAt(rows: seq<Window>, y: int, i: nat)
    requires i < |rows| && rows[i].from <= y < rows[i].to
    requires forall j :: 0 <= j < i ==> rows[j].to <= y
    ensures YearTier(rows, y) == Some(rows[i].tier)
  {
    if i > 0 {
      YearTierAt(rows[1..], y, i - 1);
    }
  }

  /** In a tiling, a year of window `i` has that window's tier. */
  lemma YearOfWindow(rows: seq<Window>, y: int, i: nat)
    requires Tiles(rows) && i < |rows| && rows[i].from <= y < rows[i].to
    ensures YearTier(rows, y) == Some(rows[i].tier)
  {
    forall j | 0 <= j < i
      ensures rows[j].to <= y
    {
      WindowsAscend(rows, j, i);
    }
    YearTierAt(rows, y, i);
  }

  /** Every year in range falls in some window. */
  lemma {:induction false} WindowOfYear(rows: seq<Window>, y: int, n: nat) returns (i: nat)
    requires Tiles(rows) && 0 < n <= |rows| && 0 <= y < rows[n - 1].to
    ensures i < n && rows[i].from <= y < rows[i].to
  {
    if rows[n - 1].from <= y {
      i := n - 1;
    } else {
      i := WindowOfYear(rows, y, n - 1);
    }
  }

  lemma {:induction false} WorstTouchedIs(rows: seq<Window>, band: Band)
    ensures WorstTouched(rows, band).Some? <==> exists i :: 0 <= i < |rows| && Touches(rows[i], band)
    ensures WorstTouched(rows, band).Some? ==>
      && (exists i :: 0 <= i < |rows| && Touches(rows[i], band) && rows[i].tier == WorstTouched(rows, band).value)
      && (forall i :: 0 <= i < |rows| && Touches(rows[i], band)
           ==> Rank(rows[i].tier) <= Rank(WorstTouched(rows, band).value))
  {
    if rows != [] {
      WorstTouchedIs(rows[..|rows| - 1], band);
    }
  }

  /** Some year of the band in range has tier `t`, and no such year has a worse one. */
  ghost predicate WorstYear(rows: seq<Window>, band: Band, t: Tier) {
    && (exists y :: YearIn(y, band) && InRange(y) && YearTier(rows, y) == Some(t))
    && forall y :: YearIn(y, band) && InRange(y) ==>
         YearTier(rows, y).Some? && Rank(YearTier(rows, y).value) <= Rank(t)
  }

  lemma WindowsInRange(rows: seq<Window>, i: nat)
    requires Tiles(rows) && i < |rows|
    ensures 0 <= rows[i].from && rows[i].to <= INF
  {
    if i > 0 {
      WindowsAscend(rows, 0, i);
    }
    if i < |rows| - 1 {
      WindowsAscend(rows, i, |rows| - 1);
    }
  }

  /** Over a tiling, the worst touched window is the worst year of the band, and only a band without
      a year in range touches no window. */
  lemma WindowsStandForYears(rows: seq<Window>, band: Band)
    requires Tiles(rows) && band.lo <= band.hi
    ensures WorstTouched(rows, band).Some? <==> band.hi >= 0 && band.lo < INF
    ensures WorstTouched(rows, band).Some? ==> WorstYear(rows, band, WorstTouched(rows, band).value)
  {
    WorstTouchedIs(rows, band);
    if band.hi >= 0 && band.lo < INF {
      var y0 := if band.lo < 0 then 0 else band.lo;
      var i0 := WindowOfYear(rows, y0, |rows|);
      assert Touches(rows[i0], band);
      var worst := WorstTouched(rows, band).value;
      var i :| 0 <= i < |rows| && Touches(rows[i], band) && rows[i].tier == worst;
      var y := if band.lo < rows[i].from then rows[i].from else band.lo;
      YearOfWindow(rows, y, i);
      WindowsInRange(rows, i);
      assert YearIn(y, band) && InRange(y);
      forall x | YearIn(x, band) && InRange(x)
        ensures YearTier(rows, x).Some? && Rank(YearTier(rows, x).value) <= Rank(worst)
      {
        var k := WindowOfYear(rows, x, |rows|);
        YearOfWindow(rows, x, k);
        assert Touches(rows[k], band);
      }
    } else {
      forall i | 0 <= i < |rows|
        ensures !Touches(rows[i], band)
      {
        WindowsInRange(rows, i);
      }
    }
  }

  predicate Within(inner: Band, outer: Band) {
    outer.lo <= inner.lo <= inner.hi <= outer.hi
  }

  /** Widening a band that has a year in range never improves its tier. */
  lemma WideningNeverImproves(cc: Country, inner: Band, outer: Band)
    requires Within(inner, outer) && inner.hi >= 0 && inner.lo < INF
    ensures Rank(Floor(Some(cc), Some(inner))) <= Rank(Floor(Some(cc), Some(outer)))
  {
    EveryRowTiles(cc);
    var rows := Rows(cc);
    if rows != [] {
      WindowsStandForYears(rows, inner);
      WindowsStandForYears(rows, outer);
      var y :| YearIn(y, inner) && InRange(y) && YearTier(rows, y) == Some(Floor(Some(cc), Some(inner)));
      assert YearIn(y, outer);
    }
  }

  /** No country is trusted from year 0. */
  lemma NoRowStartsTrusted(cc: Country)
    ensures Rows(cc) != [] ==> Rows(cc)[0].tier != TRUST
  {
  }

  lemma WidenFrom(cc: Country, inner: Band, outer: Band)
    requires Within(inner, outer) && Rows(cc) != []
    requires inner.lo < INF || Rows(cc)[|Rows(cc)| - 1].tier != TRUST
    ensures Rank(Floor(Some(cc), Some(inner))) <= Rank(Floor(Some(cc), Some(outer)))
  {
    var rows := Rows(cc);
    EveryRowTiles(cc);
    NoRowStartsTrusted(cc);
    WindowsStandForYears(rows, inner);
    WindowsStandForYears(rows, outer);
    if inner.hi >= 0 && inner.lo < INF {
      WideningNeverImproves(cc, inner, outer);
    } else if outer.hi >= 0 && outer.lo < INF {
      // The band leaves the table on one side, so the widened one touches the window at that end.
      WorstTouchedIs(rows, outer);
      WindowsInRange(rows, 0);
      WindowsInRange(rows, |rows| - 1);
      assert inner.hi < 0 ==> Touches(rows[0], outer);
      assert inner.lo >= INF ==> Touches(rows[|rows| - 1], outer);
    }
  }

  /** For any band, widening is safe exactly unless the band starts past the last year of the table
      and the country's last window is trusted: such a band is out of range, hence REVIEW, and
      stretching it back by one year would make it TRUST. */
  lemma WideningSafeIff(cc: Country, inner: Band)
    requires inner.lo <= inner.hi
    ensures (forall outer :: Within(inner, outer)
              ==> Rank(Floor(Some(cc), Some(inner))) <= Rank(Floor(Some(cc), Some(outer))))
       <==> inner.lo < INF || Rows(cc) == [] || Rows(cc)[|Rows(cc)| - 1].tier != TRUST
  {
    var rows := Rows(cc);
    EveryRowTiles(cc);
    NoRowStartsTrusted(cc);
    if rows != [] {
      WindowsStandForYears(rows, inner);
      if inner.lo < INF || rows[|rows| - 1].tier != TRUST {
        forall outer | Within(inner, outer)
          ensures Rank(Floor(Some(cc), Some(inner))) <= Rank(Floor(Some(cc), Some(outer)))
        {
          WidenFrom(cc, inner, outer);
        }
      } else {
        var last := INF - 1;
        var stretched := Band(last, inner.hi);
        WorstTouchedIs(rows, stretched);
        forall i | 0 <= i < |rows| - 1
          ensures !Touches(rows[i], stretched)
        {
          WindowsAscend(rows, i, |rows| - 1);
        }
        assert Touches(rows[|rows| - 1], stretched);
        assert Within(inner, stretched);
      }
    }
  }

  /** A French doctorate dated past the table is REVIEW; dated anywhere from the table's last year on, TRUST. */
  lemma {:induction false} WideningImproves()
    ensures Within(Band(INF, INF), Band(INF - 1, INF))
    ensures Floor(Some(FR), Some(Band(INF, INF))) == REVIEW && Floor(Some(FR), Some(Band(INF - 1, INF))) == TRUST
  {
    var rows := Rows(FR);
    EveryRowTiles(FR);
    WorstTouchedIs(rows, Band(INF, INF));
    WorstTouchedIs(rows, Band(INF - 1, INF));
    assert Touches(rows[2], Band(INF - 1, INF));
  }
}
