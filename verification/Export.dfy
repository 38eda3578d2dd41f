/** Rebuilding documents from their objects. */
module Export {
  import opened Wrappers
  import opened Objects
  import opened Content

  /** The objects reached from h spell out the tree n. */
  ghost predicate Rebuilds(s: Objects, h: Hash, n: Node)
    decreases n
  {
    h in s &&
    match n
    case ElementNode(name, ns, attributes, children) =>
      && s[h].Element? && s[h].localName == name && s[h].namespaceUri == ns
      && AttributeMap(s[h].attributes) == attributes
      && |s[h].children| == |children|
      && forall i :: 0 <= i < |children| ==> Rebuilds(s, s[h].children[i], children[i])
    case TextNode(content) => s[h] == Text(content)
    case CommentNode(content) => s[h] == Comment(content)
    case PINode(target, data) => s[h] == PI(target, data)
  }

  lemma {:induction false} RebuildsOnce(s: Objects, h: Hash, n: Node, m: Node)
    requires Rebuilds(s, h, n) && Rebuilds(s, h, m)
    ensures n == m
    decreases n
  {
    if n.ElementNode? {
      forall i | 0 <= i < |n.children|
        ensures n.children[i] == m.children[i]
      {
        RebuildsOnce(s, s[h].children[i], n.children[i], m.children[i]);
      }
    }
  }

  /** In an addressed store, a tree that is all there can be rebuilt from its hash. */
  lemma {:induction false} WholeRebuilds(hx: Hashing, s: Objects, n: Node)
    requires CollisionFree(hx) && Addressed(hx, s) && hx.known(n) && Whole(hx, s, n)
    ensures Rebuilds(s, hx.node(n), n)
    decreases n
  {
    FoundDescribes(hx, s, hx.node(n), n);
    if n.ElementNode? {
      forall i | 0 <= i < |n.children|
        ensures Rebuilds(s, s[hx.node(n)].children[i], n.children[i])
      {
        WholeRebuilds(hx, s, n.children[i]);
      }
    }
  }

  /** The known tree with hash h, if there is one. */
  ghost function NamedBy(hx: Hashing, h: Hash): Node {
    if exists n :: Names(hx, h, n) then var n :| Names(hx, h, n); n else TextNode("")
  }

  lemma ElementNamed(hx: Hashing, s: Objects, h: Hash)
    requires CollisionFree(hx) && Addressed(hx, s) && h in s && s[h].Element?
    ensures var n := NamedBy(hx, h); Names(hx, h, n) && Describes(hx, s[h], n) && n.ElementNode?
  {
    assert BelongsAt(hx, h, s[h]);
    var m :| Names(hx, h, m) && Describes(hx, s[h], m);
    NamesOnce(hx, h, m, NamedBy(hx, h));
  }

  lemma ChildNamed(hx: Hashing, s: Objects, h: Hash, i: nat)
    requires CollisionFree(hx) && Addressed(hx, s) && h in s && s[h].Element? && i < |s[h].children|
    ensures var n := NamedBy(hx, h);
      && n.ElementNode? && |n.children| == |s[h].children|
      && Names(hx, s[h].children[i], n.children[i])
      && NamedBy(hx, s[h].children[i]) == n.children[i]
  {
    ElementNamed(hx, s, h);
    var n := NamedBy(hx, h);
    assert n.children[i] in n.children;
    assert Names(hx, s[h].children[i], n.children[i]);
    NamesOnce(hx, s[h].children[i], n.children[i], NamedBy(hx, s[h].children[i]));
  }

  /** An element whose children have all been rebuilt is the tree its hash names. */
  lemma ElementRebuilt(hx: Hashing, s: Objects, h: Hash, children: seq<Node>)
    requires CollisionFree(hx) && Addressed(hx, s) && h in s && s[h].Element? && |children| == |s[h].children|
    requires forall i :: 0 <= i < |children| ==> Names(hx, s[h].children[i], children[i]) && Whole(hx, s, children[i])
    ensures var n := ElementNode(s[h].localName, s[h].namespaceUri, AttributeMap(s[h].attributes), children);
      Names(hx, h, n) && Whole(hx, s, n)
  {
    ElementNamed(hx, s, h);
    forall i | 0 <= i < |children|
      ensures children[i] == NamedBy(hx, h).children[i]
    {
      ChildNamed(hx, s, h, i);
      NamesOnce(hx, s[h].children[i], children[i], NamedBy(hx, h).children[i]);
    }
    assert children == NamedBy(hx, h).children;
  }

  /** Rebuilds the tree under h. It fails on an object the store lacks, or on one that is
      not XML content. */
  method BuildNode(hx: Hashing, s: Objects, h: Hash) returns (r: Result<Node, Error>)
    requires CollisionFree(hx) && Addressed(hx, s)
    ensures r.Ok? ==> Names(hx, h, r.value) && Whole(hx, s, r.value)
    ensures r.Err? && r.error.NotFound? ==> r.error.hash !in s
    ensures r.Err? && !r.error.NotFound? ==> h in s && IsRecord(s[h])
    ensures forall n :: Names(hx, h, n) && Whole(hx, s, n) ==> r == Ok(n)
    decreases NamedBy(hx, h)
  {
    if h !in s {
      return Err(NotFound(h));
    }
    match s[h] {
      case Text(content) =>
        assert BelongsAt(hx, h, s[h]);
        r := Ok(TextNode(content));
      case Comment(content) =>
        assert BelongsAt(hx, h, s[h]);
        r := Ok(CommentNode(content));
      case PI(target, data) =>
        assert BelongsAt(hx, h, s[h]);
        r := Ok(PINode(target, data));
      case Element(name, ns, attributeList, childHashes) =>
        var attributes := BuildAttributes(attributeList);
        var children: seq<Node> := [];
        var i := 0;
        while i < |childHashes|
          invariant 0 <= i <= |childHashes| && |children| == i
          invariant forall j :: 0 <= j < i ==> Names(hx, childHashes[j], children[j]) && Whole(hx, s, children[j])
        {
          ChildNamed(hx, s, h, i);
          var child := BuildNode(hx, s, childHashes[i]);
          if child.Err? {
            return Err(child.error);
          }
          children := children + [child.value];
          i := i + 1;
        }
        ElementRebuilt(hx, s, h, children);
        r := Ok(ElementNode(name, ns, attributes, children));
      case _ =>
        return Err(InvalidObject("cannot export versioning object as XML content"));
    }
  }

  method BuildAttributes(list: seq<Attribute>) returns (attributes: map<AttributeName, string>)
    ensures attributes == AttributeMap(list)
  {
    attributes := map[];
    var i := 0;
    while i < |list|
      invariant 0 <= i <= |list|
      invariant attributes == AttributeMap(list[..i])
    {
      attributes := attributes[NameOf(list[i]) := list[i].value];
      assert NamedValues(list[..i + 1])[..i] == NamedValues(list[..i]);
      i := i + 1;
    }
    assert list[..i] == list;
  }
}
