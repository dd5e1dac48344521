/** Keeping the elements of a list that pass a test. */
module Filters {

  function Keep<T>(s: seq<T>, p: T -> bool): (r: seq<T>)
    ensures |r| <= |s|
  {
    if s == [] then [] else Keep(s[..|s| - 1], p) + if p(s[|s| - 1]) then [s[|s| - 1]] else []
  }

  lemma {:induction false} KeptPasses<T>(s: seq<T>, p: T -> bool)
    ensures forall i :: 0 <= i < |Keep(s, p)| ==> p(Keep(s, p)[i]) && Keep(s, p)[i] in s
  {
    if s != [] {
      KeptPasses(s[..|s| - 1], p);
    }
  }

  lemma {:induction false} PassingIsKept<T>(s: seq<T>, p: T -> bool, i: nat)
    requires i < |s| && p(s[i])
    ensures s[i] in Keep(s, p)
  {
    var n := |s| - 1;
    if i < n {
      PassingIsKept(s[..n], p, i);
    }
  }

  lemma {:induction false} KeptWhole<T>(s: seq<T>, p: T -> bool)
    ensures |Keep(s, p)| == |s| ==> Keep(s, p) == s
    ensures (forall i :: 0 <= i < |s| ==> p(s[i])) ==> Keep(s, p) == s
  {
    if s != [] {
      var init, last := s[..|s| - 1], s[|s| - 1];
      KeptWhole(init, p);
      assert s == init + [last];
      assert forall i :: 0 <= i < |init| ==> init[i] == s[i];
    }
  }

  /** Tests that agree on the list keep the same of it. */
  lemma {:induction false} KeepAgrees<T>(s: seq<T>, p: T -> bool, q: T -> bool)
    requires forall i :: 0 <= i < |s| ==> p(s[i]) == q(s[i])
    ensures Keep(s, p) == Keep(s, q)
  {
    if s != [] {
      KeepAgrees(s[..|s| - 1], p, q);
    }
  }

  /** What is kept passes and comes from the list, whatever passes is kept, and only a full list is kept
      whole. */
  lemma {:induction false} KeepFacts<T>(s: seq<T>, p: T -> bool)
    ensures forall i :: 0 <= i < |Keep(s, p)| ==> p(Keep(s, p)[i]) && Keep(s, p)[i] in s
    ensures forall i :: 0 <= i < |s| && p(s[i]) ==> s[i] in Keep(s, p)
    ensures |Keep(s, p)| == |s| ==> Keep(s, p) == s
    ensures (forall i :: 0 <= i < |s| ==> p(s[i])) ==> Keep(s, p) == s
  {
    KeptPasses(s, p);
    KeptWhole(s, p);
    forall i | 0 <= i < |s| && p(s[i])
      ensures s[i] in Keep(s, p)
    {
      PassingIsKept(s, p, i);
    }
  }

  lemma KeepSnoc<T>(s: seq<T>, x: T, p: T -> bool)
    ensures Keep(s + [x], p) == Keep(s, p) + if p(x) then [x] else []
  {
    assert (s + [x])[..|s|] == s;
  }

  /** Two tests can be applied in either order. */
  lemma {:induction false} KeepCommutes<T>(s: seq<T>, p: T -> bool, q: T -> bool)
    ensures Keep(Keep(s, p), q) == Keep(Keep(s, q), p)
  {
    if s != [] {
      var init, last := s[..|s| - 1], s[|s| - 1];
      KeepCommutes(init, p, q);
      if p(last) {
        KeepSnoc(Keep(init, p), last, q);
      }
      if q(last) {
        KeepSnoc(Keep(init, q), last, p);
      }
      assert Keep(s, p) == if p(last) then Keep(init, p) + [last] else Keep(init, p);
      assert Keep(s, q) == if q(last) then Keep(init, q) + [last] else Keep(init, q);
    }
  }

  /** Elements that are pairwise different under `f` stay so. */
  lemma {:induction false} KeepInjective<T, K>(s: seq<T>, p: T -> bool, f: T -> K)
    requires forall i, j :: 0 <= i < j < |s| ==> f(s[i]) != f(s[j])
    ensures forall i, j :: 0 <= i < j < |Keep(s, p)| ==> f(Keep(s, p)[i]) != f(Keep(s, p)[j])
  {
    if s != [] {
      var init, last := s[..|s| - 1], s[|s| - 1];
      KeepInjective(init, p, f);
      KeepFacts(init, p);
      var kept := Keep(init, p);
      forall i | 0 <= i < |kept|
        ensures f(kept[i]) != f(last)
      {
        var j :| 0 <= j < |init| && init[j] == kept[i];
        assert s[j] == init[j];
      }
    }
  }

  /** Something kept has a property exactly if something that passes has it. */
  lemma {:induction false} KeepHas<T>(s: seq<T>, p: T -> bool, q: T -> bool)
    ensures (exists i :: 0 <= i < |Keep(s, p)| && q(Keep(s, p)[i])) <==> exists i :: 0 <= i < |s| && q(s[i]) && p(s[i])
  {
    var kept := Keep(s, p);
    KeepFacts(s, p);
    if i :| 0 <= i < |kept| && q(kept[i]) {
      var j :| 0 <= j < |s| && s[j] == kept[i];
    }
    if i :| 0 <= i < |s| && q(s[i]) && p(s[i]) {
      var j :| 0 <= j < |kept| && kept[j] == s[i];
    }
  }

  /** `kept` is exactly the passing elements of `s`, unchanged and in their order; `origin` tells where they stood. */
  ghost predicate Sublist<T>(s: seq<T>, p: T -> bool, kept: seq<T>, origin: seq<nat>) {
    && |origin| == |kept|
    && (forall i :: 0 <= i < |origin| ==> origin[i] < |s| && kept[i] == s[origin[i]] && p(s[origin[i]]))
    && (forall i, j :: 0 <= i < j < |origin| ==> origin[i] < origin[j])
    && forall m :: 0 <= m < |s| && p(s[m]) ==> m in origin
  }

  lemma {:induction false} SublistSnoc<T>(s: seq<T>, p: T -> bool, kept: seq<T>, origin: seq<nat>, x: T)
    requires Sublist(s, p, kept, origin)
    ensures p(x) ==> Sublist(s + [x], p, kept + [x], origin + [|s|])
    ensures !p(x) ==> Sublist(s + [x], p, kept, origin)
  {
    var all := s + [x];
    assert forall m :: 0 <= m < |s| ==> all[m] == s[m];
    forall m | 0 <= m < |all| && p(all[m])
      ensures if p(x) then m in origin + [|s|] else m in origin
    {
      if m < |s| {
        assert m in origin;
      } else {
        assert (origin + [|s|])[|origin|] == m;
      }
    }
  }

  lemma {:induction false} KeepIsSublist<T>(s: seq<T>, p: T -> bool) returns (origin: seq<nat>)
    ensures Sublist(s, p, Keep(s, p), origin)
  {
    if s == [] {
      origin := [];
    } else {
      var init, last := s[..|s| - 1], s[|s| - 1];
      origin := KeepIsSublist(init, p);
      SublistSnoc(init, p, Keep(init, p), origin, last);
      assert s == init + [last];
      origin := if p(last) then origin + [|init|] else origin;
    }
  }

  /** The images under `f` of the elements that pass. */
  function Select<T, U>(s: seq<T>, p: T -> bool, f: T -> U): seq<U> {
    if s == [] then [] else Select(s[..|s| - 1], p, f) + if p(s[|s| - 1]) then [f(s[|s| - 1])] else []
  }

  lemma {:induction false} SelectHas<T, U>(s: seq<T>, p: T -> bool, f: T -> U, x: U)
    ensures x in Select(s, p, f) <==> exists i :: 0 <= i < |s| && p(s[i]) && f(s[i]) == x
  {
    if s != [] {
      var init := s[..|s| - 1];
      SelectHas(init, p, f, x);
      if i :| 0 <= i < |init| && p(init[i]) && f(init[i]) == x {
        assert p(s[i]) && f(s[i]) == x;
      }
    }
  }
}
