/** The part of the filesystem the generator reads, as a finite tree. A directory's
    children are in the order the directory listing returns them. */
module FileTree {

  datatype Node = File(name: string, content: string) | Dir(name: string, children: seq<Node>)

  /** The number of entries in the tree rooted at n, n included. */
  function Size(n: Node): (r: nat)
    ensures r >= 1
  {
    match n
    case File(_, _) => 1
    case Dir(_, kids) => 1 + SizeAll(kids)
  }

  function SizeAll(s: seq<Node>): nat
  {
    if s == [] then 0 else Size(s[0]) + SizeAll(s[1..])
  }

  /** Each entry of a listing is no larger than the whole listing. */
  lemma {:induction false} SizeOfMember(s: seq<Node>, i: nat)
    requires i < |s|
    ensures Size(s[i]) <= SizeAll(s)
  {
    if i > 0 {
      SizeOfMember(s[1..], i - 1);
    }
  }

  /** The entries of one directory listing have pairwise different names. */
  predicate DistinctNames(s: seq<Node>)
  {
    forall i, j :: 0 <= i < j < |s| ==> s[i].name != s[j].name
  }
}
