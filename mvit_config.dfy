/** The configuration helpers of the MobileViT model wrapper: flattening a
    parsed YAML document into one dictionary whose keys are dotted key paths,
    turning a dictionary into a namespace of attributes, and the composition of
    the two that builds the model's configuration object. */
module MvitConfig {
  import opened OrderedDict

  /** A parsed YAML document: a leaf value, or a mapping whose entries are kept
      in document order. */
  datatype Tree<L> = Leaf(value: L) | Node(entries: seq<(string, Tree<L>)>)

  /** The default separator between the keys of a path. */
  const DefaultSep := "."

  /** The key of an entry under `parentKey`. An empty parent key is falsy, so
      the entry keeps its own key. */
  function NewKey(parentKey: string, sep: string, k: string): string
  {
    if parentKey != "" then parentKey + sep + k else k
  }

  // ---------------------------------------------------------------------------
  // Reference definition: the leaves of a document and the key paths to them
  // ---------------------------------------------------------------------------

  /** Every leaf below the entries `es`, in document order, with the path of
      keys that leads to it. */
  function LeafPathsOf<L>(es: seq<(string, Tree<L>)>): seq<(seq<string>, L)>
    decreases es
  {
    if es == [] then []
    else LeafPathsOf(es[..|es| - 1]) + EntryPaths(es[|es| - 1])
  }

  /** The leaves below one entry: the entry itself if it holds a leaf. */
  function EntryPaths<L>(e: (string, Tree<L>)): seq<(seq<string>, L)>
    decreases e
  {
    match e.1
    case Leaf(v) => [([e.0], v)]
    case Node(cs) => Prefixed(e.0, LeafPathsOf(cs))
  }

  /** Puts `k` in front of every path. */
  function Prefixed<L>(k: string, ps: seq<(seq<string>, L)>): (r: seq<(seq<string>, L)>)
    ensures |r| == |ps|
    ensures forall i :: 0 <= i < |ps| ==> r[i] == ([k] + ps[i].0, ps[i].1)
  {
    seq(|ps|, i requires 0 <= i < |ps| => ([k] + ps[i].0, ps[i].1))
  }

  /** The key a path of keys is stored under when the walk starts at `parentKey`. */
  function JoinKey(parentKey: string, sep: string, path: seq<string>): string
    decreases |path|
  {
    if path == [] then parentKey
    else JoinKey(NewKey(parentKey, sep, path[0]), sep, path[1..])
  }

  /** `sep.join(path)`. */
  function SepJoin(sep: string, path: seq<string>): string
    requires path != []
    decreases |path|
  {
    if |path| == 1 then path[0] else path[0] + sep + SepJoin(sep, path[1..])
  }

  /** The leaves with their joined keys, in document order. */
  function Joined<L>(parentKey: string, sep: string, ps: seq<(seq<string>, L)>): (r: seq<(string, L)>)
    ensures |r| == |ps|
    ensures forall i :: 0 <= i < |ps| ==> r[i] == (JoinKey(parentKey, sep, ps[i].0), ps[i].1)
  {
    seq(|ps|, i requires 0 <= i < |ps| => (JoinKey(parentKey, sep, ps[i].0), ps[i].1))
  }

  /** The leaves below `es` with the keys flattening gives them. */
  function LeafItems<L>(parentKey: string, sep: string, es: seq<(string, Tree<L>)>): seq<(string, L)>
  {
    Joined(parentKey, sep, LeafPathsOf(es))
  }

  /** What flattening a mapping yields: the dictionary built from its leaves
      and their joined keys, a later leaf overwriting an earlier one with the
      same key. */
  function Flatten<L>(d: Tree<L>, parentKey: string, sep: string): (r: ODict<L>)
    requires d.Node?
    ensures Valid(r)
  {
    FromItems(LeafItems(parentKey, sep, d.entries))
  }

  /** A flat dictionary as a mapping of leaves. */
  function Embed<L>(flat: ODict<L>): (t: Tree<L>)
    requires Valid(flat)
    ensures t.Node? && |t.entries| == |flat.keys|
    ensures forall i :: 0 <= i < |flat.keys| ==> t.entries[i] == (flat.keys[i], Leaf(flat.values[flat.keys[i]]))
  {
    Node(seq(|flat.keys|, i requires 0 <= i < |flat.keys| => (flat.keys[i], Leaf(flat.values[flat.keys[i]]))))
  }

  /** `path` leads from `t` to a leaf holding `v`. */
  ghost predicate Reaches<L>(t: Tree<L>, path: seq<string>, v: L)
    decreases t
  {
    match t
    case Leaf(x) => path == [] && x == v
    case Node(es) =>
      path != [] && exists i :: 0 <= i < |es| && es[i].0 == path[0] && Reaches(es[i].1, path[1..], v)
  }

  // ---------------------------------------------------------------------------
  // flatten_yaml_as_dict
  // ---------------------------------------------------------------------------

  /** `flatten_yaml_as_dict(d, parent_key, sep)`: walks the entries in order,
      appending each leaf under its new key and the items of each flattened
      sub-mapping, and builds a dictionary from the list. */
  method FlattenYamlAsDict<L>(d: Tree<L>, parentKey: string := "", sep: string := DefaultSep)
    returns (r: ODict<L>)
    requires d.Node?
    ensures Valid(r)
    ensures r == Flatten(d, parentKey, sep)
    decreases d
  {
    var es := d.entries;
    var items: seq<(string, L)> := [];
    var i := 0;
    while i < |es|
      invariant 0 <= i <= |es|
      invariant FromItems(items) == FromItems(LeafItems(parentKey, sep, es[..i]))
    {
      var (k, v) := es[i];
      var newKey := NewKey(parentKey, sep, k);
      assert es[..i + 1] == es[..i] + [es[i]];
      LeafItemsConcat(parentKey, sep, es[..i], [es[i]]);
      if v.Node? {
        var sub := FlattenYamlAsDict(v, newKey, sep);
        LeafItemsOfNode(parentKey, sep, k, v.entries);
        PutAllConcat(Empty(), items, Items(sub));
        PutAllFromItems(FromItems(items), LeafItems(newKey, sep, v.entries));
        PutAllConcat(Empty(), LeafItems(parentKey, sep, es[..i]), LeafItems(newKey, sep, v.entries));
        items := items + Items(sub);
      } else {
        LeafItemsOfLeaf(parentKey, sep, k, v.value);
        PutAllSnoc(Empty(), items, (newKey, v.value));
        PutAllSnoc(Empty(), LeafItems(parentKey, sep, es[..i]), (newKey, v.value));
        items := items + [(newKey, v.value)];
      }
      i := i + 1;
    }
    assert es[..i] == es;
    r := FromItems(items);
  }

  // ---------------------------------------------------------------------------
  // Lemmas about the leaves of a document
  // ---------------------------------------------------------------------------

  /** The leaves of consecutive entries are the leaves of each, in order. */
  lemma {:induction false} LeafPathsConcat<L>(a: seq<(string, Tree<L>)>, b: seq<(string, Tree<L>)>)
    ensures LeafPathsOf(a + b) == LeafPathsOf(a) + LeafPathsOf(b)
    decreases |b|
  {
    if b == [] {
      assert a + b == a;
    } else {
      var n := |b| - 1;
      assert (a + b)[..|a + b| - 1] == a + b[..n];
      assert (a + b)[|a + b| - 1] == b[n];
      assert LeafPathsOf(a + b) == LeafPathsOf(a + b[..n]) + EntryPaths(b[n]);
      assert LeafPathsOf(b) == LeafPathsOf(b[..n]) + EntryPaths(b[n]);
      LeafPathsConcat(a, b[..n]);
    }
  }

  lemma LeafItemsConcat<L>(parentKey: string, sep: string, a: seq<(string, Tree<L>)>, b: seq<(string, Tree<L>)>)
    ensures LeafItems(parentKey, sep, a + b) == LeafItems(parentKey, sep, a) + LeafItems(parentKey, sep, b)
  {
    LeafPathsConcat(a, b);
  }

  /** A sub-mapping contributes its own leaves, keyed under the entry's new key. */
  lemma LeafItemsOfNode<L>(parentKey: string, sep: string, k: string, cs: seq<(string, Tree<L>)>)
    ensures LeafItems(parentKey, sep, [(k, Node(cs))]) == LeafItems(NewKey(parentKey, sep, k), sep, cs)
  {
    var e := (k, Node(cs));
    var ps := LeafPathsOf(cs);
    assert LeafPathsOf([e]) == Prefixed(k, ps) by {
      assert [e][..0] == [];
    }
    var lhs, rhs := Joined(parentKey, sep, Prefixed(k, ps)), Joined(NewKey(parentKey, sep, k), sep, ps);
    forall i | 0 <= i < |ps| ensures lhs[i] == rhs[i] {
      var q := [k] + ps[i].0;
      assert q[0] == k && q[1..] == ps[i].0;
    }
    assert lhs == rhs;
  }

  /** A leaf entry contributes itself under the entry's new key. */
  lemma LeafItemsOfLeaf<L>(parentKey: string, sep: string, k: string, v: L)
    ensures LeafItems(parentKey, sep, [(k, Leaf(v))]) == [(NewKey(parentKey, sep, k), v)]
  {
    var e := (k, Leaf(v));
    assert [e][..0] == [];
    assert LeafPathsOf([e]) == [([k], v)];
    assert [k][1..] == [];
    assert JoinKey(parentKey, sep, [k]) == NewKey(parentKey, sep, k);
  }

  /** Every leaf path has at least one key. */
  lemma LeafPathsNonEmpty<L>(es: seq<(string, Tree<L>)>)
    ensures forall q :: q in LeafPathsOf(es) ==> q.0 != []
  {
    InLeafPathsAll(es);
    forall q, i | 0 <= i < |es| && q in EntryPaths(es[i]) ensures q.0 != [] {
      InEntryPaths(es[i], q);
    }
  }

  lemma InLeafPathsAll<L>(es: seq<(string, Tree<L>)>)
    ensures forall q :: q in LeafPathsOf(es) ==> exists i :: 0 <= i < |es| && q in EntryPaths(es[i])
  {
    forall q | q in LeafPathsOf(es) ensures exists i :: 0 <= i < |es| && q in EntryPaths(es[i]) {
      InLeafPaths(es, q);
    }
  }

  /** A path is among the leaf paths of `es` exactly when it is among those of
      one of the entries. */
  lemma {:induction false} InLeafPaths<L>(es: seq<(string, Tree<L>)>, q: (seq<string>, L))
    ensures q in LeafPathsOf(es) <==> exists i :: 0 <= i < |es| && q in EntryPaths(es[i])
    decreases |es|
  {
    if es != [] {
      var n := |es| - 1;
      InLeafPaths(es[..n], q);
      assert LeafPathsOf(es) == LeafPathsOf(es[..n]) + EntryPaths(es[n]);
      if q in LeafPathsOf(es[..n]) {
        var i :| 0 <= i < n && q in EntryPaths(es[..n][i]);
        assert es[i] == es[..n][i];
      }
      if i :| 0 <= i < |es| && q in EntryPaths(es[i]) {
        if i < n {
          assert es[..n][i] == es[i];
        }
      }
    }
  }

  /** A path is among the leaf paths of one entry exactly when it starts with
      the entry's key and goes on to a leaf below it. */
  lemma InEntryPaths<L>(e: (string, Tree<L>), q: (seq<string>, L))
    ensures q in EntryPaths(e) <==>
      && q.0 != [] && q.0[0] == e.0
      && (e.1.Leaf? ==> q == ([e.0], e.1.value))
      && (e.1.Node? ==> (q.0[1..], q.1) in LeafPathsOf(e.1.entries))
  {
    if e.1.Node? {
      var ps := LeafPathsOf(e.1.entries);
      if q in EntryPaths(e) {
        var i :| 0 <= i < |ps| && Prefixed(e.0, ps)[i] == q;
        assert q.0[1..] == ps[i].0;
      }
      if q.0 != [] && q.0[0] == e.0 && (q.0[1..], q.1) in ps {
        var i :| 0 <= i < |ps| && ps[i] == (q.0[1..], q.1);
        assert [e.0] + q.0[1..] == q.0;
        assert Prefixed(e.0, ps)[i] == q;
      }
    }
  }

  /** The leaf paths are exactly the paths that reach a leaf. */
  lemma {:induction false} LeafPathsReach<L>(es: seq<(string, Tree<L>)>, path: seq<string>, v: L)
    ensures (path, v) in LeafPathsOf(es) <==> Reaches(Node(es), path, v)
    decreases es
  {
    InLeafPaths(es, (path, v));
    forall i | 0 <= i < |es|
      ensures (path, v) in EntryPaths(es[i]) <==>
        path != [] && es[i].0 == path[0] && Reaches(es[i].1, path[1..], v)
    {
      InEntryPaths(es[i], (path, v));
      if es[i].1.Node? {
        if path != [] {
          LeafPathsReach(es[i].1.entries, path[1..], v);
        }
      } else if path != [] && es[i].0 == path[0] {
        assert |path| == 1 <==> path[1..] == [];
        if |path| == 1 {
          assert path == [es[i].0];
        }
      }
    }
  }

  /** Under a non-empty parent key, a path's key is the parent key, the
      separator and the path joined by the separator. */
  lemma {:induction false} JoinKeyUnderParent(parentKey: string, sep: string, path: seq<string>)
    requires parentKey != "" && path != []
    ensures JoinKey(parentKey, sep, path) == parentKey + sep + SepJoin(sep, path)
    decreases |path|
  {
    var next := parentKey + sep + path[0];
    if |path| == 1 {
      assert path[1..] == [];
    } else {
      assert next != "" by { assert |next| >= |parentKey|; }
      JoinKeyUnderParent(next, sep, path[1..]);
    }
  }

  /** With no parent key, a path whose first key is not empty is stored under
      the keys joined by the separator. */
  lemma JoinKeyTopLevel(sep: string, path: seq<string>)
    requires path != [] && path[0] != ""
    ensures JoinKey("", sep, path) == SepJoin(sep, path)
  {
    if |path| == 1 {
      assert path[1..] == [];
    } else {
      JoinKeyUnderParent(path[0], sep, path[1..]);
    }
  }

  // ---------------------------------------------------------------------------
  // Properties of flattening
  // ---------------------------------------------------------------------------

  /** A key is in the flattened dictionary exactly when some path reaching a
      leaf is joined to it. */
  lemma FlattenKeys<L>(d: Tree<L>, parentKey: string, sep: string, key: string)
    requires d.Node?
    ensures key in Flatten(d, parentKey, sep).values <==>
      exists path, v :: Reaches(d, path, v) && JoinKey(parentKey, sep, path) == key
  {
    var ps := LeafPathsOf(d.entries);
    var items := LeafItems(parentKey, sep, d.entries);
    PutAllHasKey(Empty(), items, key);
    if key in Flatten(d, parentKey, sep).values {
      var j :| 0 <= j < |items| && KeysOf(items)[j] == key;
      LeafPathsReach(d.entries, ps[j].0, ps[j].1);
      assert Reaches(d, ps[j].0, ps[j].1);
    }
    if path, v :| Reaches(d, path, v) && JoinKey(parentKey, sep, path) == key {
      LeafPathsReach(d.entries, path, v);
      var j :| 0 <= j < |ps| && ps[j] == (path, v);
      assert KeysOf(items)[j] == key;
    }
  }

  /** A top-level leaf keeps its own key when there is no parent key. */
  lemma FlattenTopLevelLeaf<L>(d: Tree<L>, sep: string, i: int)
    requires d.Node? && 0 <= i < |d.entries| && d.entries[i].1.Leaf?
    ensures d.entries[i].0 in Flatten(d, "", sep).values
  {
    var (k, t) := d.entries[i];
    assert [k][1..] == [];
    assert Reaches(t, [], t.value);
    assert Reaches(d, [k], t.value);
    assert JoinKey("", sep, [k]) == k;
    FlattenKeys(d, "", sep, k);
  }

  /** A leaf reached by a path whose first key is not empty is stored under the
      path's keys joined by the separator. */
  lemma FlattenReachedLeaf<L>(d: Tree<L>, sep: string, path: seq<string>, v: L)
    requires d.Node? && Reaches(d, path, v) && path != [] && path[0] != ""
    ensures SepJoin(sep, path) in Flatten(d, "", sep).values
  {
    JoinKeyTopLevel(sep, path);
    FlattenKeys(d, "", sep, SepJoin(sep, path));
    assert Reaches(d, path, v) && JoinKey("", sep, path) == SepJoin(sep, path);
  }

  /** Of the leaves joined to the same key, the one later in document order wins. */
  lemma FlattenLastWins<L>(d: Tree<L>, parentKey: string, sep: string, j: int)
    requires d.Node? && 0 <= j < |LeafPathsOf(d.entries)|
    requires forall t :: j < t < |LeafPathsOf(d.entries)| ==>
      JoinKey(parentKey, sep, LeafPathsOf(d.entries)[t].0) != JoinKey(parentKey, sep, LeafPathsOf(d.entries)[j].0)
    ensures JoinKey(parentKey, sep, LeafPathsOf(d.entries)[j].0) in Flatten(d, parentKey, sep).values
    ensures Flatten(d, parentKey, sep).values[JoinKey(parentKey, sep, LeafPathsOf(d.entries)[j].0)]
      == LeafPathsOf(d.entries)[j].1
  {
    var items := LeafItems(parentKey, sep, d.entries);
    PutAllLastWins(Empty(), items, j, items[j].0);
  }

  /** Every value of the flattened dictionary is a leaf of the document, reached
      by a path joined to its key. */
  lemma FlattenValueIsLeaf<L>(d: Tree<L>, parentKey: string, sep: string, key: string)
    requires d.Node? && key in Flatten(d, parentKey, sep).values
    ensures exists path :: Reaches(d, path, Flatten(d, parentKey, sep).values[key])
                        && JoinKey(parentKey, sep, path) == key
  {
    var ps := LeafPathsOf(d.entries);
    var items := LeafItems(parentKey, sep, d.entries);
    FromItemsValueOrigin(items, key);
    var j :| 0 <= j < |items| && items[j] == (key, Flatten(d, parentKey, sep).values[key]);
    LeafPathsReach(d.entries, ps[j].0, ps[j].1);
  }

  /** Under a non-empty parent key, every key starts with the parent key and
      the separator. */
  lemma FlattenUnderParent<L>(d: Tree<L>, parentKey: string, sep: string, key: string)
    requires d.Node? && parentKey != "" && key in Flatten(d, parentKey, sep).values
    ensures |parentKey + sep| <= |key| && key[..|parentKey + sep|] == parentKey + sep
  {
    var ps := LeafPathsOf(d.entries);
    var items := LeafItems(parentKey, sep, d.entries);
    PutAllHasKey(Empty(), items, key);
    var j :| 0 <= j < |items| && KeysOf(items)[j] == key;
    LeafPathsNonEmpty(d.entries);
    assert ps[j] in ps;
    JoinKeyUnderParent(parentKey, sep, ps[j].0);
  }

  /** An empty sub-mapping contributes no entries. */
  lemma FlattenEmptyMapping<L>(a: seq<(string, Tree<L>)>, k: string, b: seq<(string, Tree<L>)>,
                               parentKey: string, sep: string)
    ensures Flatten(Node(a + [(k, Node([]))] + b), parentKey, sep) == Flatten(Node(a + b), parentKey, sep)
  {
    var e: (string, Tree<L>) := (k, Node([]));
    LeafPathsConcat(a + [e], b);
    LeafPathsConcat(a, [e]);
    LeafPathsConcat(a, b);
    assert [e][..0] == [];
    assert LeafPathsOf([e]) == [];
    assert LeafPathsOf(a) + [] == LeafPathsOf(a);
  }

  /** There are at most as many keys as leaves: colliding keys merge. */
  lemma FlattenSize<L>(d: Tree<L>, parentKey: string, sep: string)
    requires d.Node?
    ensures |Flatten(d, parentKey, sep).keys| <= |LeafPathsOf(d.entries)|
  {
    PutAllSize(Empty(), LeafItems(parentKey, sep, d.entries));
  }

  /** The keys come in the order of the first leaf joined to each. */
  lemma FlattenKeyOrder<L>(d: Tree<L>, parentKey: string, sep: string)
    requires d.Node?
    ensures Flatten(d, parentKey, sep).keys == FirstOccurrences(KeysOf(LeafItems(parentKey, sep, d.entries)))
  {
    FromItemsKeyOrder(LeafItems(parentKey, sep, d.entries));
  }

  /** Flattening a dictionary of leaves gives it back. */
  lemma FlattenFlat<L>(flat: ODict<L>, sep: string)
    requires Valid(flat)
    ensures Flatten(Embed(flat), "", sep) == flat
  {
    var es := Embed(flat).entries;
    assert LeafItems("", sep, es) == Items(flat) by {
      LeafItemsOfEmbed(flat, sep, |es|);
      assert es[..|es|] == es;
    }
    FromItemsOfItems(flat);
  }

  lemma {:induction false} LeafItemsOfEmbed<L>(flat: ODict<L>, sep: string, n: int)
    requires Valid(flat) && 0 <= n <= |flat.keys|
    ensures LeafItems("", sep, Embed(flat).entries[..n]) == Items(flat)[..n]
    decreases n
  {
    if n > 0 {
      var es := Embed(flat).entries;
      LeafItemsOfEmbed(flat, sep, n - 1);
      assert es[..n] == es[..n - 1] + [es[n - 1]];
      LeafItemsConcat("", sep, es[..n - 1], [es[n - 1]]);
      LeafItemsOfLeaf("", sep, flat.keys[n - 1], flat.values[flat.keys[n - 1]]);
      assert Items(flat)[..n] == Items(flat)[..n - 1] + [Items(flat)[n - 1]];
    }
  }

  /** Flattening is idempotent: a flattened dictionary holds only leaves, so
      flattening it again returns it unchanged. */
  lemma FlattenIdempotent<L>(d: Tree<L>, parentKey: string, sep: string, sep': string)
    requires d.Node?
    ensures Flatten(Embed(Flatten(d, parentKey, sep)), "", sep') == Flatten(d, parentKey, sep)
  {
    FlattenFlat(Flatten(d, parentKey, sep), sep');
  }

  // ---------------------------------------------------------------------------
  // NestedNamespace
  // ---------------------------------------------------------------------------

  /** What an attribute of a namespace denotes: a plain value, or the
      attributes of a nested namespace. */
  datatype Member<L> = Value(value: L) | Nested(attrs: ODict<Member<L>>)

  /** The namespace a mapping denotes: one attribute per key, set in document
      order; a mapping value becomes a nested namespace, anything else is
      stored as it is. */
  function NamespaceOf<L>(es: seq<(string, Tree<L>)>): (r: ODict<Member<L>>)
    ensures Valid(r)
    decreases es
  {
    if es == [] then Empty()
    else Put(NamespaceOf(es[..|es| - 1]), es[|es| - 1].0, EntryMember(es[|es| - 1]))
  }

  /** What the value of an entry becomes as an attribute. */
  function EntryMember<L>(e: (string, Tree<L>)): Member<L>
    decreases e
  {
    match e.1
    case Leaf(v) => Value(v)
    case Node(cs) => Nested(NamespaceOf(cs))
  }

  /** An attribute of a namespace object. */
  datatype Attr<L> = Plain(value: L) | Sub(ns: NestedNamespace<L>)

  /** `NestedNamespace(dictionary)`: a namespace whose attributes are the keys
      of the dictionary, with nested namespaces for the dictionary values. */
  class NestedNamespace<L> {
    /** The attributes, in the order they were set. */
    var attrs: ODict<Attr<L>>
    /** What the attributes denote, nested namespaces included. */
    ghost var Model: ODict<Member<L>>
    ghost var Repr: set<object>

    ghost predicate Valid()
      reads this, Repr
      ensures Valid() ==> this in Repr
      decreases Repr, 1
    {
      && this in Repr
      && Model.keys == attrs.keys
      && Model.values.Keys == attrs.values.Keys
      && (forall k | k in attrs.values && attrs.values[k].Plain? ::
            Model.values[k] == Value(attrs.values[k].value))
      && (forall k | k in attrs.values && attrs.values[k].Sub? ::
            Owns(attrs.values[k].ns) && Model.values[k] == Nested(attrs.values[k].ns.Model))
    }

    /** `ns` is a valid namespace inside this one's footprint. */
    ghost predicate Owns(ns: NestedNamespace<L>)
      reads this, Repr
      decreases Repr, 0
    {
      && this in Repr && ns in Repr && ns != this
      && ns.Repr <= Repr
      && this !in ns.Repr
      && ns.Valid()
    }

    constructor (dictionary: Tree<L>)
      requires dictionary.Node?
      ensures Valid() && fresh(Repr)
      ensures Model == NamespaceOf(dictionary.entries)
      decreases dictionary, 1
    {
      attrs, Model := Empty(), Empty();
      Repr := {this};
      new;
      var es := dictionary.entries;
      var i := 0;
      while i < |es|
        invariant 0 <= i <= |es|
        invariant Valid() && fresh(Repr)
        invariant Model == NamespaceOf(es[..i])
      {
        assert es[..i + 1][..i] == es[..i];
        assert NamespaceOf(es[..i + 1]) == Put(NamespaceOf(es[..i]), es[i].0, EntryMember(es[i]));
        AddEntry(es[i].0, es[i].1);
        i := i + 1;
      }
      assert es[..i] == es;
    }

    /** One turn of the loop in `__init__`: `key` is set to a nested namespace
        built from `value` when that is a mapping, and to `value` itself
        otherwise. */
    method AddEntry(key: string, value: Tree<L>)
      requires Valid()
      modifies this
      ensures Valid() && fresh(Repr - old(Repr))
      ensures Model == Put(old(Model), key, EntryMember((key, value)))
      decreases value, 2
    {
      if value.Node? {
        var sub := new NestedNamespace(value);
        SetAttr(key, Sub(sub));
      } else {
        SetAttr(key, Plain(value.value));
      }
    }

    /** `self.__setattr__(key, a)`: sets or replaces one attribute. */
    method SetAttr(key: string, a: Attr<L>)
      requires Valid()
      requires a.Sub? ==> a.ns.Valid() && this !in a.ns.Repr
      modifies this
      ensures Valid()
      ensures Repr == old(Repr) + (if a.Sub? then a.ns.Repr else {})
      ensures attrs == Put(old(attrs), key, a)
      ensures Model == Put(old(Model), key, if a.Sub? then Nested(a.ns.Model) else Value(a.value))
    {
      if a.Sub? {
        Repr := Repr + a.ns.Repr;
        attrs, Model := Put(attrs, key, a), Put(Model, key, Nested(a.ns.Model));
      } else {
        attrs, Model := Put(attrs, key, a), Put(Model, key, Value(a.value));
      }
    }
  }

  /** The attributes of a namespace built from `es`, as the pairs set in turn. */
  function EntryMembers<L>(es: seq<(string, Tree<L>)>): (r: seq<(string, Member<L>)>)
    ensures |r| == |es|
    ensures forall i :: 0 <= i < |es| ==> r[i] == (es[i].0, EntryMember(es[i]))
  {
    seq(|es|, i requires 0 <= i < |es| => (es[i].0, EntryMember(es[i])))
  }

  /** The attributes of a namespace are `dict` of its (key, attribute) pairs:
      the last pair for a key wins, at the place of the first. */
  lemma {:induction false} NamespaceOfItems<L>(es: seq<(string, Tree<L>)>)
    ensures NamespaceOf(es) == FromItems(EntryMembers(es))
    decreases |es|
  {
    if es != [] {
      var n := |es| - 1;
      NamespaceOfItems(es[..n]);
      assert EntryMembers(es) == EntryMembers(es[..n]) + [(es[n].0, EntryMember(es[n]))];
      PutAllSnoc(Empty(), EntryMembers(es[..n]), (es[n].0, EntryMember(es[n])));
    }
  }

  /** Every key of the mapping becomes an attribute and nothing else does; the
      attribute holds the last value given for its key, a nested namespace for
      a mapping and the value itself otherwise. */
  lemma NamespaceAttrs<L>(es: seq<(string, Tree<L>)>, k: string, i: int)
    requires 0 <= i < |es| && es[i].0 == k
    requires forall j :: i < j < |es| ==> es[j].0 != k
    ensures k in NamespaceOf(es).values
    ensures es[i].1.Node? ==> NamespaceOf(es).values[k] == Nested(NamespaceOf(es[i].1.entries))
    ensures es[i].1.Leaf? ==> NamespaceOf(es).values[k] == Value(es[i].1.value)
  {
    NamespaceOfItems(es);
    PutAllLastWins(Empty(), EntryMembers(es), i, k);
  }

  /** Only the keys of the mapping become attributes. */
  lemma NamespaceOnlyKeys<L>(es: seq<(string, Tree<L>)>, k: string)
    requires k in NamespaceOf(es).values
    ensures exists i :: 0 <= i < |es| && es[i].0 == k
  {
    NamespaceOfItems(es);
    PutAllHasKey(Empty(), EntryMembers(es), k);
    var i :| 0 <= i < |es| && KeysOf(EntryMembers(es))[i] == k;
  }

  /** A dictionary whose values are all leaves gives a namespace without nested
      namespaces: the same keys in the same order, each holding its value. */
  lemma NamespaceOfFlat<L>(flat: ODict<L>)
    requires Valid(flat)
    ensures NamespaceOf(Embed(flat).entries) == MapValues(flat, (v: L) => Value(v))
  {
    var es := Embed(flat).entries;
    var plain := MapValues(flat, (v: L) => Value(v));
    NamespaceOfItems(es);
    assert EntryMembers(es) == Items(plain);
    FromItemsOfItems(plain);
  }

  /** `load_config` after the YAML document is parsed: the document is
      flattened and the flat dictionary turned into a namespace, so every
      attribute is a plain value stored under its dotted key path. */
  method LoadConfig<L>(cfg: Tree<L>) returns (objCfg: NestedNamespace<L>)
    requires cfg.Node?
    ensures objCfg.Valid() && fresh(objCfg.Repr)
    ensures objCfg.Model == MapValues(Flatten(cfg, "", DefaultSep), (v: L) => Value(v))
    ensures forall k | k in objCfg.attrs.values :: objCfg.attrs.values[k].Plain?
  {
    var flatCfg := FlattenYamlAsDict(cfg);
    objCfg := new NestedNamespace(Embed(flatCfg));
    NamespaceOfFlat(flatCfg);
  }
}
