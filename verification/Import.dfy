/** Decomposing a parsed document into objects, bottom up. */
module Import {
  import opened Wrappers
  import opened Objects
  import opened Sequences
  import opened ThreeWay
  import opened Content
  import opened Store

  /** A parsed node. The parser rejects an element with two attributes of one name. */
  datatype Xml =
    | XmlElement(localName: string, namespaceUri: Option<string>, attributes: seq<Attribute>, children: seq<Xml>)
    | XmlText(content: string)
    | XmlComment(content: string)
    | XmlPI(target: string, data: Option<string>)

  /** A parsed document: what precedes the root element, and the root element. */
  datatype XmlDocument = XmlDocument(before: seq<Xml>, root: Xml)

  ghost predicate WellFormed(x: Xml) {
    x.XmlElement? ==> UniqueNames(x.attributes) && forall c :: c in x.children ==> WellFormed(c)
  }

  function ContentOf(x: Xml): Node {
    match x
    case XmlElement(name, ns, attributes, children) =>
      ElementNode(name, ns, AttributeMap(attributes), ContentsOf(children))
    case XmlText(content) => TextNode(content)
    case XmlComment(content) => CommentNode(content)
    case XmlPI(target, data) => PINode(target, data)
  }

  function ContentsOf(xs: seq<Xml>): (ns: seq<Node>)
    ensures |ns| == |xs|
    ensures forall i :: 0 <= i < |xs| ==> ns[i] == ContentOf(xs[i])
  {
    seq(|xs|, i requires 0 <= i < |xs| => ContentOf(xs[i]))
  }

  /** The same markup: equal but for the order of attributes. */
  ghost predicate SameMarkup(x: Xml, y: Xml) {
    match (x, y)
    case (XmlElement(name, ns, attributes, children), XmlElement(name', ns', attributes', children')) =>
      && name == name' && ns == ns' && (forall a :: a in attributes <==> a in attributes')
      && |children| == |children'| && forall i :: 0 <= i < |children| ==> SameMarkup(children[i], children'[i])
    case _ => x == y
  }

  /** The content of a node tells all of its markup but the order of attributes. */
  lemma {:induction false} ContentFaithful(x: Xml, y: Xml)
    requires WellFormed(x) && WellFormed(y)
    ensures ContentOf(x) == ContentOf(y) <==> SameMarkup(x, y)
  {
    if x.XmlElement? && y.XmlElement? {
      SameAttributes(x.attributes, y.attributes);
      if |x.children| == |y.children| {
        forall i | 0 <= i < |x.children|
          ensures ContentOf(x.children[i]) == ContentOf(y.children[i]) <==> SameMarkup(x.children[i], y.children[i])
        {
          assert x.children[i] in x.children && y.children[i] in y.children;
          ContentFaithful(x.children[i], y.children[i]);
        }
        SameContents(x.children, y.children);
      }
    }
  }

  lemma SameContents(xs: seq<Xml>, ys: seq<Xml>)
    requires |xs| == |ys|
    ensures ContentsOf(xs) == ContentsOf(ys) <==> forall i :: 0 <= i < |xs| ==> ContentOf(xs[i]) == ContentOf(ys[i])
  {
    if ContentsOf(xs) == ContentsOf(ys) {
      forall i | 0 <= i < |xs|
        ensures ContentOf(xs[i]) == ContentOf(ys[i])
      {
        assert ContentsOf(xs)[i] == ContentsOf(ys)[i];
      }
    }
  }

  lemma SameAttributes(xs: seq<Attribute>, ys: seq<Attribute>)
    requires UniqueNames(xs) && UniqueNames(ys)
    ensures AttributeMap(xs) == AttributeMap(ys) <==> forall a :: a in xs <==> a in ys
  {
    var m, m' := AttributeMap(xs), AttributeMap(ys);
    forall a
      ensures a in xs <==> Lookup(m, NameOf(a)) == Some(a.value)
      ensures a in ys <==> Lookup(m', NameOf(a)) == Some(a.value)
    {
      AttributeMapMeaning(xs, NameOf(a), a.value);
      AttributeMapMeaning(ys, NameOf(a), a.value);
    }
    if forall a :: a in xs <==> a in ys {
      forall n
        ensures Lookup(m, n) == Lookup(m', n)
      {
        SameLookup(xs, ys, n);
      }
      assert m == m' by {
        forall n
          ensures n in m <==> n in m'
          ensures n in m ==> m[n] == m'[n]
        {
          assert Lookup(m, n) == Lookup(m', n);
        }
      }
    }
  }

  lemma SameLookup(xs: seq<Attribute>, ys: seq<Attribute>, n: AttributeName)
    requires UniqueNames(xs) && UniqueNames(ys) && forall a :: a in xs <==> a in ys
    ensures Lookup(AttributeMap(xs), n) == Lookup(AttributeMap(ys), n)
  {
    var m, m' := AttributeMap(xs), AttributeMap(ys);
    if n in m {
      AttributeMapMeaning(xs, n, m[n]);
      AttributeMapMeaning(ys, n, m[n]);
    } else if n in m' {
      AttributeMapMeaning(xs, n, m'[n]);
      AttributeMapMeaning(ys, n, m'[n]);
    }
  }

  /** The object stored for the node x itself. */
  function ObjectOf(hx: Hashing, x: Xml): Object {
    match x
    case XmlElement(name, ns, attributes, children) =>
      Element(name, ns, attributes, NodeHashes(hx, ContentsOf(children)))
    case XmlText(content) => Text(content)
    case XmlComment(content) => Comment(content)
    case XmlPI(target, data) => PI(target, data)
  }

  function EntryOf(hx: Hashing, x: Xml): Entry {
    (hx.node(ContentOf(x)), ObjectOf(hx, x))
  }

  /** The objects of x, each after those of its children. */
  function Collected(hx: Hashing, x: Xml): seq<Entry>
    decreases x, 0
  {
    (if x.XmlElement? then CollectedAll(hx, x, |x.children|) else []) + [EntryOf(hx, x)]
  }

  function CollectedAll(hx: Hashing, x: Xml, n: nat): seq<Entry>
    requires x.XmlElement? && n <= |x.children|
    decreases x, 0, n
  {
    if n == 0 then [] else CollectedAll(hx, x, n - 1) + Collected(hx, x.children[n - 1])
  }

  /** The object is of the node's kind and has its names, attributes and text, and a hash for
      each of its children. */
  predicate Keeps(o: Object, x: Xml) {
    match x
    case XmlElement(name, ns, attributes, children) =>
      && o.Element? && o.localName == name && o.namespaceUri == ns && o.attributes == attributes
      && |o.children| == |children|
    case XmlText(content) => o == Text(content)
    case XmlComment(content) => o == Comment(content)
    case XmlPI(target, data) => o == PI(target, data)
  }

  method CollectNode(hx: Hashing, x: Xml, objects: seq<Entry>) returns (h: Hash, objects': seq<Entry>)
    ensures h == hx.node(ContentOf(x))
    ensures objects' == objects + Collected(hx, x)
    ensures objects' != [] && Last(objects') == (h, Last(objects').1) && Keeps(Last(objects').1, x)
  {
    objects' := objects;
    if x.XmlElement? {
      var childHashes: seq<Hash> := [];
      var i := 0;
      while i < |x.children|
        invariant 0 <= i <= |x.children|
        invariant |childHashes| == i
        invariant forall j :: 0 <= j < i ==> childHashes[j] == hx.node(ContentOf(x.children[j]))
        invariant objects' == objects + CollectedAll(hx, x, i)
      {
        var childHash;
        childHash, objects' := CollectNode(hx, x.children[i], objects');
        childHashes := childHashes + [childHash];
        i := i + 1;
      }
      h := hx.node(ContentOf(x));
      assert childHashes == NodeHashes(hx, ContentsOf(x.children));
      objects' := objects' + [(h, Element(x.localName, x.namespaceUri, x.attributes, childHashes))];
    } else {
      h := hx.node(ContentOf(x));
      objects' := objects' + [(h, ObjectOf(hx, x))];
    }
  }

  function CollectedList(hx: Hashing, xs: seq<Xml>): seq<Entry> {
    if xs == [] then [] else CollectedList(hx, Front(xs)) + Collected(hx, Last(xs))
  }

  predicate InPrologue(x: Xml) {
    x.XmlComment? || x.XmlPI?
  }

  /** The comments and processing instructions before the root element. */
  function Prologue(xs: seq<Xml>): seq<Xml> {
    if xs == [] then [] else Prologue(Front(xs)) + if InPrologue(Last(xs)) then [Last(xs)] else []
  }

  /** The prologue holds the comments and processing instructions and nothing else. */
  lemma {:induction false} PrologueMeaning(xs: seq<Xml>)
    ensures forall x :: x in Prologue(xs) <==> x in xs && (x.XmlComment? || x.XmlPI?)
  {
    if xs != [] {
      PrologueMeaning(Front(xs));
      assert xs == Front(xs) + [Last(xs)];
    }
  }

  /** They stay in their order. */
  lemma {:induction false} PrologueInOrder(xs: seq<Xml>, q: nat, p: nat)
    requires q < p < |Prologue(xs)|
    ensures Before(xs, Prologue(xs)[q], Prologue(xs)[p])
  {
    var front, kept := Front(xs), Prologue(Front(xs));
    if p < |kept| {
      PrologueInOrder(front, q, p);
      var i, j :| 0 <= i < j < |front| && front[i] == kept[q] && front[j] == kept[p];
      assert xs[i] == kept[q] && xs[j] == kept[p];
    } else {
      PrologueMeaning(front);
      assert kept[q] in kept;
      var i :| 0 <= i < |front| && front[i] == kept[q];
      assert xs[i] == kept[q] && xs[|front|] == Prologue(xs)[p];
    }
  }

  function DocumentOf(hx: Hashing, d: XmlDocument): Object {
    Document(hx.node(ContentOf(d.root)), NodeHashes(hx, ContentsOf(Prologue(d.before))))
  }

  /** Everything a document is stored as, the document object last. */
  function DocumentEntries(hx: Hashing, d: XmlDocument): seq<Entry> {
    CollectedList(hx, Prologue(d.before)) + Collected(hx, d.root) + [(hx.record(DocumentOf(hx, d)), DocumentOf(hx, d))]
  }

  method CollectPrologue(hx: Hashing, before: seq<Xml>) returns (hashes: seq<Hash>, objects: seq<Entry>)
    ensures hashes == NodeHashes(hx, ContentsOf(Prologue(before)))
    ensures objects == CollectedList(hx, Prologue(before))
  {
    hashes, objects := [], [];
    var i := 0;
    while i < |before|
      invariant 0 <= i <= |before|
      invariant objects == CollectedList(hx, Prologue(before[..i]))
      invariant hashes == NodeHashes(hx, ContentsOf(Prologue(before[..i])))
    {
      assert Front(before[..i + 1]) == before[..i] && Last(before[..i + 1]) == before[i];
      assert Prologue(before[..i + 1])
          == if InPrologue(before[i]) then Prologue(before[..i]) + [before[i]] else Prologue(before[..i]);
      if InPrologue(before[i]) {
        PrologueNext(hx, Prologue(before[..i]), before[i]);
        var childHash;
        childHash, objects := CollectNode(hx, before[i], objects);
        hashes := hashes + [childHash];
      }
      i := i + 1;
    }
    assert before[..i] == before;
  }

  method ImportXml(store: ObjectStore, hx: Hashing, d: XmlDocument) returns (h: Hash)
    modifies store
    ensures h == hx.record(DocumentOf(hx, d))
    ensures store.objects == Filed(old(store.objects), DocumentEntries(hx, d))
  {
    var prologueHashes, objects := CollectPrologue(hx, d.before);
    var rootHash;
    rootHash, objects := CollectNode(hx, d.root, objects);
    var document := Document(rootHash, prologueHashes);
    h := hx.record(document);
    store.Commit(objects + [(h, document)]);
  }

  lemma PrologueNext(hx: Hashing, xs: seq<Xml>, x: Xml)
    ensures CollectedList(hx, xs + [x]) == CollectedList(hx, xs) + Collected(hx, x)
    ensures NodeHashes(hx, ContentsOf(xs + [x])) == NodeHashes(hx, ContentsOf(xs)) + [hx.node(ContentOf(x))]
  {
    assert Front(xs + [x]) == xs;
  }
}
