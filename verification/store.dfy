/**
 * The realtime database as the services see it: the /help_requests and
 * /knowledge_base nodes, each a dict from child key to stored value.
 */
module Store {
  import opened Wrappers
  import opened Models

  /** The child key written by the setup script next to the records; listings skip it. */
  const InitializedKey: string := "initialized"

  /** A stored child: a record dict, or a truthy non-dict value such as the setup marker
      (`"initialized": true`, a `created_at` or `description` text). */
  datatype Value<R> = Record(rec: R) | Marker

  /** A top-level node: a dict of children, or a value that is not a dict. */
  datatype Node<R> = Children(items: map<string, Value<R>>) | Leaf

  /** The children of a node; a node that is not a dict has none. */
  function Items<R>(n: Node<R>): map<string, Value<R>> {
    match n
    case Children(items) => items
    case Leaf => map[]
  }

  /** `ref.child(key).get()`: the stored child, or nothing. */
  function Child<R>(n: Node<R>, key: string): (r: Option<Value<R>>)
    ensures r.Some? <==> key in Items(n)
    ensures r.Some? ==> r.value == Items(n)[key]
  {
    if key in Items(n) then Some(Items(n)[key]) else None
  }

  /** `ref.child(key).set(v)`: the node becomes a dict holding `v` at `key`; no other child changes. */
  function Write<R>(n: Node<R>, key: string, v: Value<R>): (r: Node<R>)
    ensures r.Children?
    ensures Items(r).Keys == Items(n).Keys + {key}
    ensures Child(r, key) == Some(v)
    ensures forall k :: k in Items(n) && k != key ==> Child(r, k) == Child(n, k)
  {
    Children(Items(n)[key := v])
  }

  ghost predicate Distinct<T>(s: seq<T>) {
    forall i, j :: 0 <= i < j < |s| ==> s[i] != s[j]
  }

  /** `order` is the order in which a read of the node enumerates its children:
      every child key exactly once. */
  ghost predicate ListsChildren<R>(order: seq<string>, n: Node<R>) {
    Distinct(order) && forall k :: k in order <==> k in Items(n)
  }

  lemma {:induction false} DistinctElements<T>(s: seq<T>)
    requires Distinct(s)
    ensures |set x | x in s| == |s|
  {
    if s != [] {
      DistinctElements(s[1..]);
      assert (set x | x in s) == (set x | x in s[1..]) + {s[0]};
    }
  }

  /** An enumeration of a node's children lists as many keys as the node has children;
      a node with no children is enumerated as the empty sequence. */
  lemma EnumerationLength<R>(order: seq<string>, n: Node<R>)
    requires ListsChildren(order, n)
    ensures |order| == |Items(n)|
    ensures Items(n) == map[] ==> order == []
  {
    assert (set k | k in order) == Items(n).Keys;
    DistinctElements(order);
  }

  /** The two nodes of the database the services use. */
  class Database {
    var helpRequests: Node<HelpRecord>
    var knowledgeBase: Node<KbEntry>

    constructor (helpRequests: Node<HelpRecord>, knowledgeBase: Node<KbEntry>)
      ensures this.helpRequests == helpRequests && this.knowledgeBase == knowledgeBase
    {
      this.helpRequests := helpRequests;
      this.knowledgeBase := knowledgeBase;
    }
  }
}
