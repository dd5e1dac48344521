/** Records of the enrichment graph.  Four fields with rules of their own are separate; the others are a
    dictionary.  `source` is the list of the parts that the source joins with '+'. */
module Records {
  import opened Names
  import opened Options
  import opened Edges
  import opened Filters

  datatype Value = Null | Num(n: int) | Text(text: string) | Items(items: seq<string>)

  /** Null, the empty string and the empty list (`_empty`). */
  predicate EmptyValue(v: Value) {
    v == Null || v == Text("") || v == Items([])
  }

  datatype Record = Record(
    fields: map<string, Value>, advisors: Option<seq<Edge>>, institution: Option<string>, source: seq<string>,
    gid: Option<string>)

  type Graph = map<Key, Record>

  function Get(r: Record, field: string): Value {
    if field in r.fields then r.fields[field] else Null
  }

  function AdvisorsOf(r: Record): seq<Edge> {
    if r.advisors.Some? then r.advisors.value else []
  }

  predicate Named(e: Edge) {
    e.name != NO_KEY
  }

  function NamedEdges(edges: seq<Edge>): seq<Edge> {
    Keep(edges, Named)
  }

  function AdvisorKey(e: Edge): Key {
    NormalizeKey(e.name)
  }

  /** `k` is the key of a named advisor of `r`. */
  predicate Advises(r: Record, k: Key) {
    exists i :: 0 <= i < |AdvisorsOf(r)| && Named(AdvisorsOf(r)[i]) && AdvisorKey(AdvisorsOf(r)[i]) == k
  }

  /** The keys of a dictionary, each once, in insertion order. */
  ghost predicate Lists(keys: seq<Key>, g: Graph) {
    && (forall i :: 0 <= i < |keys| ==> keys[i] in g)
    && (forall k {:trigger k in keys} :: k in g <==> k in keys)
    && forall i, j :: 0 <= i < j < |keys| ==> keys[i] != keys[j]
  }

  lemma PositionOf(keys: seq<Key>, g: Graph, k: Key) returns (i: nat)
    requires Lists(keys, g) && k in g
    ensures i < |keys| && keys[i] == k
  {
    assert k in keys;
    i :| i < |keys| && keys[i] == k;
  }
}
