/** The content-addressed objects of a repository, and the two graphs they form: what an
    object refers to, and the parents of a commit. */
module Objects {
  import opened Wrappers
  import opened Reachability

  /** A content hash. How it is computed is not modelled; what is assumed of it is stated
      where it is needed. */
  type Hash(==, !new)

  datatype Attribute = Attribute(localName: string, namespaceUri: Option<string>, value: string)

  datatype Author = Author(name: string, email: string)

  /** A file of a tree: its path and the hash of its document. */
  datatype TreeEntry = TreeEntry(path: string, document: Hash)

  datatype Object =
    | Element(localName: string, namespaceUri: Option<string>, attributes: seq<Attribute>, children: seq<Hash>)
    | Text(content: string)
    | Comment(content: string)
    | PI(target: string, data: Option<string>)
    | Document(root: Hash, prologue: seq<Hash>)
    | Tree(entries: seq<TreeEntry>)
    | Commit(tree: Hash, parents: seq<Hash>, author: Author, timestamp: int, message: string)
    | Tag(tagged: Hash, name: string, tagger: Author, timestamp: int, message: string)

  type Objects = map<Hash, Object>

  datatype Error =
    | NotFound(hash: Hash)
    | InvalidObject(reason: string)
    | RefError(reason: string)

  predicate Missing(s: Objects, e: Error) {
    e.NotFound? && e.hash !in s
  }

  /** An object and its hash. */
  type Entry = (Hash, Object)

  function Documents(entries: seq<TreeEntry>): (hs: seq<Hash>)
    ensures |hs| == |entries|
    ensures forall i :: 0 <= i < |hs| ==> hs[i] == entries[i].document
  {
    seq(|entries|, i requires 0 <= i < |entries| => entries[i].document)
  }

  /** The hashes an object refers to, in the order the subtree walk pushes them. */
  function References(o: Object): seq<Hash> {
    match o
    case Commit(tree, parents, _, _, _) => [tree] + parents
    case Tag(tagged, _, _, _, _) => [tagged]
    case Tree(entries) => Documents(entries)
    case Document(root, prologue) => [root] + prologue
    case Element(_, _, _, children) => children
    case _ => []
  }

  /** Objects other than commits have no parents. */
  function Parents(o: Object): seq<Hash> {
    if o.Commit? then o.parents else []
  }

  function ReferenceGraph(s: Objects): Graph<Hash> {
    map h | h in s :: References(s[h])
  }

  function CommitGraph(s: Objects): Graph<Hash> {
    map h | h in s :: Parents(s[h])
  }

  /** The commit d lies in the history of c. */
  ghost predicate Ancestor(s: Objects, d: Hash, c: Hash) {
    Reaches(CommitGraph(s), c, d)
  }

  /** The history of a commit is the commit and the histories of its parents; of anything else
      it is only that. */
  lemma AncestorMeaning(s: Objects, d: Hash, c: Hash)
    ensures Ancestor(s, d, c) <==>
      d == c || (c in s && s[c].Commit? && exists p :: p in s[c].parents && Ancestor(s, d, p))
  {
    var g := CommitGraph(s);
    ReachesSelf(g, c);
    if Ancestor(s, d, c) && d != c {
      var p := FirstStep(g, c, d);
      assert p in s[c].parents && Ancestor(s, d, p);
    }
    if c in s && s[c].Commit? {
      forall p | p in s[c].parents && Ancestor(s, d, p)
        ensures Ancestor(s, d, c)
      {
        assert Edge(g, c, p);
        ReachesEdgeThen(g, c, p, d);
      }
    }
  }

  ghost predicate CommonAncestorOf(s: Objects, d: Hash, a: Hash, b: Hash) {
    Ancestor(s, d, a) && Ancestor(s, d, b)
  }

  /** Every object of s is in s' under the same hash. */
  ghost predicate Grows(s: Objects, s': Objects) {
    forall h :: h in s ==> h in s' && s'[h] == s[h]
  }

  lemma GrowsExtends(s: Objects, s': Objects)
    requires Grows(s, s')
    ensures Extends(CommitGraph(s), CommitGraph(s'))
    ensures Extends(ReferenceGraph(s), ReferenceGraph(s'))
  {
  }
}
