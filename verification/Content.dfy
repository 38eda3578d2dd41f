/** XML content as finite trees, how the store breaks a tree into objects, and what is
    assumed of the hashes that name them. */
module Content {
  import opened Wrappers
  import opened Objects
  import opened ThreeWay

  datatype AttributeName = AttributeName(localName: string, namespaceUri: Option<string>)

  /** A node of a document. Canonical XML orders attributes by name, so a node's attributes
      are a map. */
  datatype Node =
    | ElementNode(localName: string, namespaceUri: Option<string>, attributes: map<AttributeName, string>,
      children: seq<Node>)
    | TextNode(content: string)
    | CommentNode(content: string)
    | PINode(target: string, data: Option<string>)

  function NameOf(a: Attribute): AttributeName {
    AttributeName(a.localName, a.namespaceUri)
  }

  function NamedValues(attributes: seq<Attribute>): (ps: seq<(AttributeName, string)>)
    ensures |ps| == |attributes|
  {
    seq(|attributes|, i requires 0 <= i < |attributes| => (NameOf(attributes[i]), attributes[i].value))
  }

  function AttributeMap(attributes: seq<Attribute>): map<AttributeName, string> {
    Collect(NamedValues(attributes))
  }

  ghost predicate UniqueNames(attributes: seq<Attribute>) {
    forall i, j :: 0 <= i < j < |attributes| ==> NameOf(attributes[i]) != NameOf(attributes[j])
  }

  /** Without repeated names, the map says of each name what the list does. */
  lemma AttributeMapMeaning(attributes: seq<Attribute>, n: AttributeName, v: string)
    requires UniqueNames(attributes)
    ensures Lookup(AttributeMap(attributes), n) == Some(v) <==>
      Attribute(n.localName, n.namespaceUri, v) in attributes
  {
    var ps := NamedValues(attributes);
    CollectHolds(ps);
    if Attribute(n.localName, n.namespaceUri, v) in attributes {
      var i :| 0 <= i < |attributes| && attributes[i] == Attribute(n.localName, n.namespaceUri, v);
      assert DistinctKeys(ps);
      CollectDistinct(ps, i);
    } else if n in AttributeMap(attributes) {
      var i :| 0 <= i < |ps| && ps[i] == (n, AttributeMap(attributes)[n]);
      assert attributes[i] in attributes;
    }
  }

  // ----- Hashes

  /** The hash functions in use. `node` hashes the canonical form of a tree, `record` the XML
      of a document, tree, commit or tag object; `known` delimits the trees of which
      collision freedom is assumed. */
  datatype Hashing = Hashing(node: Node -> Hash, record: Object -> Hash, known: Node -> bool)

  predicate IsRecord(o: Object) {
    o.Document? || o.Tree? || o.Commit? || o.Tag?
  }

  /** Equal hashes mean equal content, over the known trees and all records. */
  ghost predicate CollisionFree(hx: Hashing) {
    && (forall x, y :: hx.known(x) && hx.known(y) && hx.node(x) == hx.node(y) ==> x == y)
    && (forall x, y :: IsRecord(x) && IsRecord(y) && hx.record(x) == hx.record(y) ==> x == y)
    && (forall x, y :: hx.known(x) && IsRecord(y) ==> hx.node(x) != hx.record(y))
    && (forall x, y :: hx.known(x) && x.ElementNode? && y in x.children ==> hx.known(y))
  }

  function NodeHashes(hx: Hashing, nodes: seq<Node>): (hs: seq<Hash>)
    ensures |hs| == |nodes|
    ensures forall i :: 0 <= i < |hs| ==> hs[i] == hx.node(nodes[i])
  {
    seq(|nodes|, i requires 0 <= i < |nodes| => hx.node(nodes[i]))
  }

  /** The tree n is known and h is its hash. */
  predicate Names(hx: Hashing, h: Hash, n: Node) {
    hx.known(n) && hx.node(n) == h
  }

  lemma NamesOnce(hx: Hashing, h: Hash, n: Node, m: Node)
    requires CollisionFree(hx) && Names(hx, h, n) && Names(hx, h, m)
    ensures n == m
  {
  }

  // ----- Objects as parts of trees

  /** The object o is the top of the tree n. */
  ghost predicate Describes(hx: Hashing, o: Object, n: Node) {
    match n
    case ElementNode(name, ns, attributes, children) =>
      && o.Element? && o.localName == name && o.namespaceUri == ns
      && UniqueNames(o.attributes) && AttributeMap(o.attributes) == attributes
      && o.children == NodeHashes(hx, children)
    case TextNode(content) => o == Text(content)
    case CommentNode(content) => o == Comment(content)
    case PINode(target, data) => o == PI(target, data)
  }

  /** The object o belongs under the hash h. */
  ghost predicate BelongsAt(hx: Hashing, h: Hash, o: Object) {
    if IsRecord(o) then h == hx.record(o) else exists n :: Names(hx, h, n) && Describes(hx, o, n)
  }

  /** Every object of the store is filed under the hash of what it is. */
  ghost predicate Addressed(hx: Hashing, s: Objects) {
    forall h :: h in s ==> BelongsAt(hx, h, s[h])
  }

  /** All of the tree n is in the store. */
  ghost predicate Whole(hx: Hashing, s: Objects, n: Node) {
    && hx.node(n) in s
    && (n.ElementNode? ==> forall c :: c in n.children ==> Whole(hx, s, c))
  }

  /** In an addressed store, the object under a tree's hash is that tree's top. */
  lemma FoundDescribes(hx: Hashing, s: Objects, h: Hash, n: Node)
    requires CollisionFree(hx) && Addressed(hx, s) && Names(hx, h, n) && h in s
    ensures !IsRecord(s[h]) && Describes(hx, s[h], n)
  {
    assert BelongsAt(hx, h, s[h]);
    if !IsRecord(s[h]) {
      var m :| Names(hx, h, m) && Describes(hx, s[h], m);
      NamesOnce(hx, h, n, m);
    }
  }

  /** Objects that differ at most in the order of their attributes. */
  predicate SameContent(o: Object, o': Object) {
    || o == o'
    || (&& o.Element? && o'.Element?
        && o.localName == o'.localName && o.namespaceUri == o'.namespaceUri && o.children == o'.children
        && AttributeMap(o.attributes) == AttributeMap(o'.attributes))
  }

  /** s' holds all that s holds, and no new commit. */
  ghost predicate Preserves(s: Objects, s': Objects) {
    && (forall h :: h in s ==> h in s' && SameContent(s[h], s'[h]))
    && (forall h :: h in s' && s'[h].Commit? ==> h in s)
  }

  lemma PreservesTransitive(s: Objects, s': Objects, s'': Objects)
    requires Preserves(s, s') && Preserves(s', s'')
    ensures Preserves(s, s'')
  {
  }

  lemma {:induction false} WholeStays(hx: Hashing, s: Objects, s': Objects, n: Node)
    requires s.Keys <= s'.Keys && Whole(hx, s, n)
    ensures Whole(hx, s', n)
  {
    if n.ElementNode? {
      forall c | c in n.children
        ensures Whole(hx, s', c)
      {
        WholeStays(hx, s, s', c);
      }
    }
  }

  /** What belongs under one hash is one content. */
  lemma OneContent(hx: Hashing, h: Hash, o: Object, o': Object)
    requires CollisionFree(hx) && BelongsAt(hx, h, o) && BelongsAt(hx, h, o')
    ensures SameContent(o, o')
  {
    if !IsRecord(o) && !IsRecord(o') {
      var n :| Names(hx, h, n) && Describes(hx, o, n);
      var m :| Names(hx, h, m) && Describes(hx, o', m);
      NamesOnce(hx, h, n, m);
    }
  }

  /** Filing an object where it belongs loses nothing. */
  lemma PutPreserves(hx: Hashing, s: Objects, h: Hash, o: Object)
    requires CollisionFree(hx) && Addressed(hx, s) && BelongsAt(hx, h, o)
    ensures Addressed(hx, s[h := o])
    ensures forall x :: x in s ==> SameContent(s[x], s[h := o][x])
    ensures !o.Commit? ==> Preserves(s, s[h := o])
  {
    if h in s {
      OneContent(hx, h, s[h], o);
    }
  }
}
