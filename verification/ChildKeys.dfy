/** The identity keys that match an element's children across three versions. */
module ChildKeys {
  import opened Wrappers
  import opened Objects
  import opened Sequences
  import opened ThreeWay
  import opened Content

  const XML_NAMESPACE := "http://www.w3.org/XML/1998/namespace"

  datatype ChildKey =
    | ElementById(localName: string, id: string)
    | ElementByPos(localName: string, index: nat)
    | TextAt(index: nat)
    | CommentAt(index: nat)
    | OtherAt(index: nat)

  /** What of a child its key depends on, besides the siblings before it. */
  datatype Kind = Identified(localName: string, id: string) | Named(localName: string) | Texts | Comments | Others

  predicate IsIdName(n: AttributeName) {
    n.localName == "id" && (n.namespaceUri == None || n.namespaceUri == Some(XML_NAMESPACE))
  }

  /** The value of the first `id` or `xml:id` attribute in the list. */
  function FirstId(attributes: seq<Attribute>): Option<string> {
    if attributes == [] then None
    else if IsIdName(NameOf(attributes[0])) then Some(attributes[0].value)
    else FirstId(attributes[1..])
  }

  function ObjectKind(o: Object): Kind {
    match o
    case Element(name, _, attributes, _) =>
      var id := FirstId(attributes);
      if id.Some? then Identified(name, id.value) else Named(name)
    case Text(_) => Texts
    case Comment(_) => Comments
    case _ => Others
  }

  const PLAIN_ID := AttributeName("id", None)
  const XML_ID := AttributeName("id", Some(XML_NAMESPACE))

  function IdOf(attributes: map<AttributeName, string>): Option<string> {
    if PLAIN_ID in attributes then Some(attributes[PLAIN_ID])
    else if XML_ID in attributes then Some(attributes[XML_ID])
    else None
  }

  function NodeKind(n: Node): Kind {
    match n
    case ElementNode(name, _, attributes, _) =>
      var id := IdOf(attributes);
      if id.Some? then Identified(name, id.value) else Named(name)
    case TextNode(_) => Texts
    case CommentNode(_) => Comments
    case PINode(_, _) => Others
  }

  /** An element with both `id` and `xml:id` is identified by whichever its attribute list
      happens to hold first; on any other node the order of attributes is immaterial. */
  predicate OneId(n: Node) {
    n.ElementNode? ==> !(PLAIN_ID in n.attributes && XML_ID in n.attributes)
  }

  lemma {:induction false} FirstIdFound(attributes: seq<Attribute>)
    ensures FirstId(attributes).Some? ==>
      exists i :: 0 <= i < |attributes| && IsIdName(NameOf(attributes[i]))
        && FirstId(attributes) == Some(attributes[i].value)
    ensures FirstId(attributes).None? ==> forall i :: 0 <= i < |attributes| ==> !IsIdName(NameOf(attributes[i]))
  {
    if attributes != [] && !IsIdName(NameOf(attributes[0])) {
      FirstIdFound(attributes[1..]);
      if FirstId(attributes).Some? {
        var i :| 0 <= i < |attributes[1..]| && IsIdName(NameOf(attributes[1..][i]))
               && FirstId(attributes) == Some(attributes[1..][i].value);
        assert attributes[i + 1] == attributes[1..][i];
      } else {
        forall i | 0 <= i < |attributes|
          ensures !IsIdName(NameOf(attributes[i]))
        {
          if i > 0 {
            assert attributes[i] == attributes[1..][i - 1];
          }
        }
      }
    }
  }

  lemma IdAgrees(attributes: seq<Attribute>)
    requires UniqueNames(attributes)
    requires !(PLAIN_ID in AttributeMap(attributes) && XML_ID in AttributeMap(attributes))
    ensures FirstId(attributes) == IdOf(AttributeMap(attributes))
  {
    var ps := NamedValues(attributes);
    CollectHolds(ps);
    FirstIdFound(attributes);
    if FirstId(attributes).Some? {
      var i :| 0 <= i < |attributes| && IsIdName(NameOf(attributes[i]))
        && FirstId(attributes) == Some(attributes[i].value);
      assert DistinctKeys(ps);
      CollectDistinct(ps, i);
    }
  }

  lemma KindAgrees(hx: Hashing, o: Object, n: Node)
    requires Describes(hx, o, n) && OneId(n)
    ensures ObjectKind(o) == NodeKind(n)
  {
    if n.ElementNode? {
      IdAgrees(o.attributes);
    }
  }

  // ----- Keys

  function Count(kinds: seq<Kind>, k: Kind): nat {
    if kinds == [] then 0
    else Count(Front(kinds), k) + if Last(kinds) == k then 1 else 0
  }

  /** The key of a child of kind k with c siblings of that kind before it. */
  function MakeKey(k: Kind, c: nat): ChildKey {
    match k
    case Identified(name, id) => ElementById(name, id)
    case Named(name) => ElementByPos(name, c)
    case Texts => TextAt(c)
    case Comments => CommentAt(c)
    case Others => OtherAt(c)
  }

  /** The keys of children of the given kinds. */
  function KeysOf(kinds: seq<Kind>): (ks: seq<ChildKey>)
    ensures |ks| == |kinds|
  {
    if kinds == [] then []
    else KeysOf(Front(kinds)) + [MakeKey(Last(kinds), Count(Front(kinds), Last(kinds)))]
  }

  lemma {:induction false} KeyAt(kinds: seq<Kind>, i: nat)
    requires i < |kinds|
    ensures KeysOf(kinds)[i] == MakeKey(kinds[i], Count(kinds[..i], kinds[i]))
  {
    if i < |kinds| - 1 {
      KeyAt(Front(kinds), i);
      assert Front(kinds)[..i] == kinds[..i];
    }
  }

  lemma {:induction false} CountGrows(kinds: seq<Kind>, i: nat, j: nat)
    requires i < j <= |kinds|
    ensures Count(kinds[..i], kinds[i]) < Count(kinds[..j], kinds[i])
    decreases j
  {
    assert Front(kinds[..j]) == kinds[..j - 1];
    if i < j - 1 {
      CountGrows(kinds, i, j - 1);
    }
  }

  ghost predicate DistinctIds(kinds: seq<Kind>) {
    forall i, j :: 0 <= i < j < |kinds| && kinds[i].Identified? ==> kinds[i] != kinds[j]
  }

  /** Children have distinct keys exactly when no two share local name and id. */
  lemma KeysDistinct(kinds: seq<Kind>)
    ensures NoRepeats(KeysOf(kinds)) <==> DistinctIds(kinds)
  {
    var ks := KeysOf(kinds);
    if DistinctIds(kinds) {
      forall i, j | 0 <= i < j < |ks|
        ensures ks[i] != ks[j]
      {
        KeyAt(kinds, i);
        KeyAt(kinds, j);
        if kinds[i] == kinds[j] {
          CountGrows(kinds, i, j);
        }
      }
    } else {
      var i, j :| 0 <= i < j < |kinds| && kinds[i].Identified? && kinds[i] == kinds[j];
      KeyAt(kinds, i);
      KeyAt(kinds, j);
      assert ks[i] == ks[j];
    }
  }

  function KindsOf(nodes: seq<Node>): (ks: seq<Kind>)
    ensures |ks| == |nodes|
    ensures forall i :: 0 <= i < |nodes| ==> ks[i] == NodeKind(nodes[i])
  {
    seq(|nodes|, i requires 0 <= i < |nodes| => NodeKind(nodes[i]))
  }

  function Keys(nodes: seq<Node>): (ks: seq<ChildKey>)
    ensures |ks| == |nodes|
  {
    KeysOf(KindsOf(nodes))
  }

  ghost function Positions(kinds: seq<Kind>, k: Kind): set<nat> {
    set j: nat | j < |kinds| && kinds[j] == k
  }

  lemma PositionsNext(front: seq<Kind>, last: Kind, k: Kind)
    ensures var n, before, now := |front|, Positions(front, k), Positions(front + [last], k);
      n !in before && now == if last == k then before + {n} else before
  {
  }

  lemma {:induction false} CountIsSize(kinds: seq<Kind>, k: Kind)
    ensures Count(kinds, k) == |Positions(kinds, k)|
  {
    if kinds != [] {
      CountIsSize(Front(kinds), k);
      PositionsNext(Front(kinds), Last(kinds), k);
    }
  }

  /** An element of this name with neither an `id` nor an `xml:id` attribute. */
  predicate Plain(n: Node, name: string) {
    && n.ElementNode? && n.localName == name && AttributeName("id", None) !in n.attributes
    && AttributeName("id", Some("http://www.w3.org/XML/1998/namespace")) !in n.attributes
  }

  /** The key of each child: an element's id if it has one, and otherwise how many siblings
      before it are elements of its name without an id; for other nodes, how many siblings
      before it are of its kind. */
  lemma KeySpelled(nodes: seq<Node>, i: nat)
    requires i < |nodes|
    ensures Keys(nodes)[i] ==
      match nodes[i]
      case ElementNode(name, _, attributes, _) =>
        var plain, xml := AttributeName("id", None),
          AttributeName("id", Some("http://www.w3.org/XML/1998/namespace"));
        if plain in attributes then ElementById(name, attributes[plain])
        else if xml in attributes then ElementById(name, attributes[xml])
        else ElementByPos(name, |set j: nat | j < i && Plain(nodes[j], name)|)
      case TextNode(_) => TextAt(|set j: nat | j < i && nodes[j].TextNode?|)
      case CommentNode(_) => CommentAt(|set j: nat | j < i && nodes[j].CommentNode?|)
      case PINode(_, _) => OtherAt(|set j: nat | j < i && nodes[j].PINode?|)
  {
    var kinds := KindsOf(nodes);
    KeyAt(kinds, i);
    CountIsSize(kinds[..i], kinds[i]);
    EarlierOfKind(nodes, i);
  }

  /** The siblings before a node that share its kind. */
  lemma EarlierOfKind(nodes: seq<Node>, i: nat)
    requires i < |nodes|
    ensures var kinds := KindsOf(nodes);
      var before := Positions(kinds[..i], kinds[i]);
      match nodes[i]
      case ElementNode(name, _, _, _) => kinds[i].Named? ==> before == set j: nat | j < i && Plain(nodes[j], name)
      case TextNode(_) => before == set j: nat | j < i && nodes[j].TextNode?
      case CommentNode(_) => before == set j: nat | j < i && nodes[j].CommentNode?
      case PINode(_, _) => before == set j: nat | j < i && nodes[j].PINode?
  {
    forall j: nat | j < i
      ensures NodeKind(nodes[j]) == NodeKind(nodes[i]) <==>
        match nodes[i]
        case ElementNode(name, _, _, _) =>
          if NodeKind(nodes[i]).Named? then Plain(nodes[j], name) else NodeKind(nodes[j]) == NodeKind(nodes[i])
        case TextNode(_) => nodes[j].TextNode?
        case CommentNode(_) => nodes[j].CommentNode?
        case PINode(_, _) => nodes[j].PINode?
    {
    }
  }

  function Pair<T>(ks: seq<ChildKey>, xs: seq<T>): (ps: seq<(ChildKey, T)>)
    requires |ks| == |xs|
    ensures |ps| == |ks|
    ensures forall i :: 0 <= i < |ps| ==> ps[i] == (ks[i], xs[i])
  {
    seq(|ks|, i requires 0 <= i < |ks| => (ks[i], xs[i]))
  }

  // ----- Reading keys from a store

  /** The kind of a stored child; a missing one has no kind of its own. */
  function StoredKind(s: Objects, h: Hash): Kind {
    if h in s then ObjectKind(s[h]) else Others
  }

  function StoredKinds(s: Objects, children: seq<Hash>): (ks: seq<Kind>)
    ensures |ks| == |children|
    ensures forall i :: 0 <= i < |ks| ==> ks[i] == StoredKind(s, children[i])
  {
    seq(|children|, i requires 0 <= i < |children| => StoredKind(s, children[i]))
  }

  /** The running counts of the scan: of unidentified elements by name, and of the other
      kinds of node. */
  datatype Counters = Counters(named: map<string, nat>, texts: nat, comments: nat, others: nat) {
    function Of(k: Kind): nat {
      match k
      case Identified(_, _) => 0
      case Named(name) => if name in named then named[name] else 0
      case Texts => texts
      case Comments => comments
      case Others => others
    }

    function After(k: Kind): Counters {
      match k
      case Identified(_, _) => this
      case Named(name) => this.(named := named[name := Of(k) + 1])
      case Texts => this.(texts := texts + 1)
      case Comments => this.(comments := comments + 1)
      case Others => this.(others := others + 1)
    }
  }

  function Counted(kinds: seq<Kind>): Counters {
    if kinds == [] then Counters(map[], 0, 0, 0) else Counted(Front(kinds)).After(Last(kinds))
  }

  /** The counters hold how many of each kind were seen. */
  lemma {:induction false} CountersCount(kinds: seq<Kind>, k: Kind)
    requires !k.Identified?
    ensures Counted(kinds).Of(k) == Count(kinds, k)
  {
    if kinds != [] {
      CountersCount(Front(kinds), k);
    }
  }

  /** Stored children with their keys. */
  function StoredKeyed(s: Objects, children: seq<Hash>): seq<(ChildKey, Hash)> {
    Pair(KeysOf(StoredKinds(s, children)), children)
  }

  lemma StoredKeyedNext(s: Objects, before: seq<Hash>, h: Hash)
    ensures var k, kinds := StoredKind(s, h), StoredKinds(s, before);
      && StoredKeyed(s, before + [h]) == StoredKeyed(s, before) + [(MakeKey(k, Counted(kinds).Of(k)), h)]
      && Counted(StoredKinds(s, before + [h])) == Counted(kinds).After(k)
  {
    var k, kinds := StoredKind(s, h), StoredKinds(s, before);
    assert StoredKinds(s, before + [h]) == kinds + [k];
    assert Front(kinds + [k]) == kinds;
    if !k.Identified? {
      CountersCount(kinds, k);
    }
  }

  /** One step of the scan: the key of the next child, and the counters after it. */
  method NextKey(o: Object, c: Counters) returns (key: ChildKey, c': Counters)
    ensures key == MakeKey(ObjectKind(o), c.Of(ObjectKind(o)))
    ensures c' == c.After(ObjectKind(o))
  {
    c' := c;
    match o {
      case Element(name, _, attributes, _) =>
        var id := FirstId(attributes);
        if id.Some? {
          key := ElementById(name, id.value);
        } else {
          var count := if name in c.named then c.named[name] else 0;
          key := ElementByPos(name, count);
          c' := c.(named := c.named[name := count + 1]);
        }
      case Text(_) =>
        key := TextAt(c.texts);
        c' := c.(texts := c.texts + 1);
      case Comment(_) =>
        key := CommentAt(c.comments);
        c' := c.(comments := c.comments + 1);
      case _ =>
        key := OtherAt(c.others);
        c' := c.(others := c.others + 1);
    }
  }

  /** What the scan holds after the children before. */
  ghost predicate Scanned(s: Objects, before: seq<Hash>, keyed: seq<(ChildKey, Hash)>, c: Counters) {
    && (forall h :: h in before ==> h in s)
    && keyed == StoredKeyed(s, before) && c == Counted(StoredKinds(s, before))
  }

  method ScanNext(s: Objects, ghost before: seq<Hash>, h: Hash, keyed: seq<(ChildKey, Hash)>, c: Counters)
    returns (keyed': seq<(ChildKey, Hash)>, c': Counters)
    requires Scanned(s, before, keyed, c) && h in s
    ensures Scanned(s, before + [h], keyed', c')
  {
    StoredKeyedNext(s, before, h);
    var key;
    key, c' := NextKey(s[h], c);
    keyed' := keyed + [(key, h)];
  }

  /** Keys each child by its kind and, unless it is identified, by how many of that kind
      came before it. A child missing from the store is an error. */
  method KeyChildren(s: Objects, children: seq<Hash>) returns (r: Result<seq<(ChildKey, Hash)>, Error>)
    ensures r.Ok? ==> (forall h :: h in children ==> h in s) && r.value == StoredKeyed(s, children)
    ensures r.Err? ==> r.error.NotFound? && r.error.hash in children && r.error.hash !in s
  {
    var keyed: seq<(ChildKey, Hash)> := [];
    var c := Counters(map[], 0, 0, 0);
    var i := 0;
    while i < |children|
      invariant 0 <= i <= |children|
      invariant Scanned(s, children[..i], keyed, c)
    {
      var h := children[i];
      if h !in s {
        return Err(NotFound(h));
      }
      TakeNext(children, i);
      keyed, c := ScanNext(s, children[..i], h, keyed, c);
      i := i + 1;
    }
    assert children[..i] == children;
    return Ok(keyed);
  }
}
