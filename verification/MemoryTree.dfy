/**
 The tree of the in-memory filesystem: looking a component list up, and
 replacing, inserting, removing and moving what it leads to.
 */
module MemoryTree {
  import opened Core

  type Path = seq<string>

  datatype Node =
    | File(content: seq<byte>, ino: nat)
    | Directory(children: map<string, Node>, ino: nat)
    | Symlink(target: string, ino: nat)

  /** `Missing` is the source's NotFound, `Blocked` its NotADirectory. */
  datatype Lookup = Found(node: Node) | Missing | Blocked

  function Resolve(node: Node, cs: Path): Lookup
    decreases |cs|
  {
    if cs == [] then Found(node)
    else if !node.Directory? then Blocked
    else if cs[0] !in node.children then Missing
    else Resolve(node.children[cs[0]], cs[1..])
  }

  /** The tree with the node at `cs` replaced. */
  function Replace(node: Node, cs: Path, n: Node): Node
    decreases |cs|
  {
    if cs == [] then n
    else if !node.Directory? || cs[0] !in node.children then node
    else node.(children := node.children[cs[0] := Replace(node.children[cs[0]], cs[1..], n)])
  }

  function ParentOf(cs: Path): Path
    requires cs != []
  {
    cs[..|cs| - 1]
  }

  function NameOf(cs: Path): string
    requires cs != []
  {
    cs[|cs| - 1]
  }

  /** The parent of `cs` exists and is a directory. */
  predicate HasParent(root: Node, cs: Path)
    requires cs != []
  {
    var r := Resolve(root, ParentOf(cs));
    r.Found? && r.node.Directory?
  }

  function Insert(root: Node, cs: Path, n: Node): Node
    requires cs != [] && HasParent(root, cs)
  {
    var dir := Resolve(root, ParentOf(cs)).node;
    Replace(root, ParentOf(cs), dir.(children := dir.children[NameOf(cs) := n]))
  }

  function Remove(root: Node, cs: Path): Node
    requires cs != [] && HasParent(root, cs)
  {
    var dir := Resolve(root, ParentOf(cs)).node;
    Replace(root, ParentOf(cs), dir.(children := dir.children - {NameOf(cs)}))
  }

  // ---------- what an observer sees at a path ----------

  datatype Kind = FileKind(content: seq<byte>) | DirectoryKind | SymlinkKind(target: string)

  datatype View = Present(kind: Kind, ino: nat) | Absent | Obstructed

  function ViewOf(r: Lookup): View {
    match r
    case Found(File(content, ino)) => Present(FileKind(content), ino)
    case Found(Directory(_, ino)) => Present(DirectoryKind, ino)
    case Found(Symlink(target, ino)) => Present(SymlinkKind(target), ino)
    case Missing => Absent
    case Blocked => Obstructed
  }

  /** Kind, inode and content at a path; a directory's entries are seen at their own paths. */
  function See(root: Node, cs: Path): View {
    ViewOf(Resolve(root, cs))
  }

  // ---------- looking up in a changed tree ----------

  lemma {:induction false} ResolveConcat(node: Node, p: Path, s: Path)
    ensures Resolve(node, p + s) ==
            if Resolve(node, p).Found? then Resolve(Resolve(node, p).node, s) else Resolve(node, p)
    decreases |p|
  {
    if p == [] {
      assert p + s == s;
    } else {
      assert (p + s)[1..] == p[1..] + s;
      if node.Directory? && p[0] in node.children {
        ResolveConcat(node.children[p[0]], p[1..], s);
      }
    }
  }

  lemma {:induction false} ReplaceUnder(node: Node, p: Path, n: Node, s: Path)
    requires Resolve(node, p).Found?
    ensures Resolve(Replace(node, p, n), p + s) == Resolve(n, s)
    decreases |p|
  {
    if p == [] {
      assert p + s == s;
    } else {
      assert (p + s)[1..] == p[1..] + s;
      ReplaceUnder(node.children[p[0]], p[1..], n, s);
    }
  }

  lemma {:induction false} ReplaceElsewhere(node: Node, p: Path, n: Node, q: Path)
    requires Resolve(node, p).Found?
    requires !(p <= q)
    ensures See(Replace(node, p, n), q) == See(node, q)
    decreases |p|
  {
    if q != [] && q[0] == p[0] {
      assert p == [p[0]] + p[1..] && q == [q[0]] + q[1..];
      ReplaceElsewhere(node.children[p[0]], p[1..], n, q[1..]);
    }
  }

  lemma InsertUnder(root: Node, cs: Path, n: Node, s: Path)
    requires cs != [] && HasParent(root, cs)
    ensures Resolve(Insert(root, cs, n), cs + s) == Resolve(n, s)
  {
    var dir := Resolve(root, ParentOf(cs)).node;
    var t := [NameOf(cs)] + s;
    assert cs + s == ParentOf(cs) + t && t[1..] == s;
    ReplaceUnder(root, ParentOf(cs), dir.(children := dir.children[NameOf(cs) := n]), t);
  }

  lemma RemoveUnder(root: Node, cs: Path, s: Path)
    requires cs != [] && HasParent(root, cs)
    ensures Resolve(Remove(root, cs), cs + s) == Missing
  {
    var dir := Resolve(root, ParentOf(cs)).node;
    var t := [NameOf(cs)] + s;
    assert cs + s == ParentOf(cs) + t;
    ReplaceUnder(root, ParentOf(cs), dir.(children := dir.children - {NameOf(cs)}), t);
  }

  /** Changing one entry of the parent of `cs` is seen only under `cs`. */
  lemma EntryElsewhere(root: Node, cs: Path, dir': Node, q: Path)
    requires cs != [] && HasParent(root, cs) && !(cs <= q)
    requires dir'.Directory? && dir'.ino == Resolve(root, ParentOf(cs)).node.ino
    requires dir'.children - {NameOf(cs)} ==
             Resolve(root, ParentOf(cs)).node.children - {NameOf(cs)}
    ensures See(Replace(root, ParentOf(cs), dir'), q) == See(root, q)
  {
    var p := ParentOf(cs);
    if !(p <= q) {
      ReplaceElsewhere(root, p, dir', q);
    } else {
      var t := q[|p|..];
      assert q == p + t;
      ReplaceUnder(root, p, dir', t);
      ResolveConcat(root, p, t);
      if t != [] {
        assert t[0] == q[|p|];
        assert t[0] != NameOf(cs);
        var dir := Resolve(root, p).node;
        assert t[0] in dir.children <==> t[0] in dir.children - {NameOf(cs)};
        assert t[0] in dir'.children <==> t[0] in dir'.children - {NameOf(cs)};
        if t[0] in dir.children {
          assert dir.children[t[0]] == (dir.children - {NameOf(cs)})[t[0]];
          assert dir'.children[t[0]] == (dir'.children - {NameOf(cs)})[t[0]];
        }
      }
    }
  }

  lemma InsertElsewhere(root: Node, cs: Path, n: Node, q: Path)
    requires cs != [] && HasParent(root, cs) && !(cs <= q)
    ensures See(Insert(root, cs, n), q) == See(root, q)
  {
    var dir := Resolve(root, ParentOf(cs)).node;
    EntryElsewhere(root, cs, dir.(children := dir.children[NameOf(cs) := n]), q);
  }

  lemma RemoveElsewhere(root: Node, cs: Path, q: Path)
    requires cs != [] && HasParent(root, cs) && !(cs <= q)
    ensures See(Remove(root, cs), q) == See(root, q)
  {
    var dir := Resolve(root, ParentOf(cs)).node;
    EntryElsewhere(root, cs, dir.(children := dir.children - {NameOf(cs)}), q);
  }

  /** An entry can only be there if its parent is a directory. */
  lemma FoundHasParent(root: Node, cs: Path)
    requires cs != []
    ensures Resolve(root, cs).Found? <==>
            HasParent(root, cs) && NameOf(cs) in Resolve(root, ParentOf(cs)).node.children
    ensures Resolve(root, cs).Found? ==>
            Resolve(root, cs).node == Resolve(root, ParentOf(cs)).node.children[NameOf(cs)]
  {
    assert cs == ParentOf(cs) + [NameOf(cs)];
    ResolveConcat(root, ParentOf(cs), [NameOf(cs)]);
  }

  // ---------- moving a subtree ----------

  /** After the node at `from` is taken out, `to` still has a parent directory. */
  predicate CanMove(root: Node, from: Path, to: Path)
    requires from != [] && to != []
  {
    Resolve(root, from).Found? && HasParent(root, from) && HasParent(Remove(root, from), to)
  }

  function Move(root: Node, from: Path, to: Path): Node
    requires from != [] && to != [] && CanMove(root, from, to)
  {
    Insert(Remove(root, from), to, Resolve(root, from).node)
  }

  /** A directory cannot be moved below itself. */
  lemma CannotMoveBelowItself(root: Node, from: Path, to: Path)
    requires from != [] && from < to
    ensures !CanMove(root, from, to)
  {
    if HasParent(root, from) {
      var s := ParentOf(to)[|from|..];
      assert ParentOf(to) == from + s;
      RemoveUnder(root, from, s);
    }
  }

  /** What is found under the new name is the whole subtree that was under the old one. */
  lemma MoveUnderNew(root: Node, from: Path, to: Path, s: Path)
    requires from != [] && to != [] && CanMove(root, from, to)
    ensures Resolve(Move(root, from, to), to + s) == Resolve(root, from + s)
  {
    InsertUnder(Remove(root, from), to, Resolve(root, from).node, s);
    ResolveConcat(root, from, s);
  }

  lemma MoveElsewhere(root: Node, from: Path, to: Path, q: Path)
    requires from != [] && to != [] && CanMove(root, from, to)
    requires !(from <= q) && !(to <= q)
    ensures See(Move(root, from, to), q) == See(root, q)
  {
    InsertElsewhere(Remove(root, from), to, Resolve(root, from).node, q);
    RemoveElsewhere(root, from, q);
  }

  /** Nothing is left under the old name, unless the move overwrote an ancestor of it. */
  lemma MoveUnderOld(root: Node, from: Path, to: Path, s: Path)
    requires from != [] && to != [] && from != to && CanMove(root, from, to)
    ensures !(to <= from) ==> See(Move(root, from, to), from + s) == Absent
    ensures to <= from ==>
              Resolve(Move(root, from, to), from + s) == Resolve(root, from + from[|to|..] + s)
  {
    if to <= from {
      assert from + s == to + (from[|to|..] + s);
      assert from + from[|to|..] + s == from + (from[|to|..] + s);
      MoveUnderNew(root, from, to, from[|to|..] + s);
    } else {
      if to <= from + s {
        assert |to| > |from|;
        assert from < to;
        CannotMoveBelowItself(root, from, to);
      }
      InsertElsewhere(Remove(root, from), to, Resolve(root, from).node, from + s);
      RemoveUnder(root, from, s);
    }
  }

  // ---------- inode numbers ----------

  ghost predicate UniqueInodes(root: Node) {
    forall p: Path, q: Path ::
      See(root, p).Present? && See(root, q).Present? && See(root, p).ino == See(root, q).ino ==> p == q
  }

  ghost predicate InodesBelow(root: Node, bound: nat) {
    forall p: Path :: See(root, p).Present? ==> See(root, p).ino < bound
  }

  /** A new file, empty directory or symlink. */
  predicate IsLeaf(n: Node) {
    n.Directory? ==> n.children == map[]
  }

  /** What an insertion shows at any path. */
  lemma InsertLeafSees(root: Node, cs: Path, n: Node, q: Path)
    requires cs != [] && HasParent(root, cs) && IsLeaf(n)
    ensures q == cs ==> See(Insert(root, cs, n), q) == ViewOf(Found(n))
    ensures cs < q ==> !See(Insert(root, cs, n), q).Present?
    ensures !(cs <= q) ==> See(Insert(root, cs, n), q) == See(root, q)
  {
    if cs <= q {
      var s := q[|cs|..];
      assert q == cs + s;
      InsertUnder(root, cs, n, s);
    } else {
      InsertElsewhere(root, cs, n, q);
    }
  }

  lemma InsertFreshKeepsInodes(root: Node, cs: Path, n: Node, counter: nat)
    requires UniqueInodes(root) && InodesBelow(root, counter)
    requires cs != [] && HasParent(root, cs) && IsLeaf(n) && n.ino == counter
    ensures UniqueInodes(Insert(root, cs, n)) && InodesBelow(Insert(root, cs, n), counter + 1)
  {
    var root' := Insert(root, cs, n);
    forall p: Path
      ensures See(root', p).Present? ==>
                See(root', p).ino < counter + 1 && (p == cs <==> See(root', p).ino == counter) &&
                (p != cs ==> See(root', p) == See(root, p))
    {
      InsertLeafSees(root, cs, n, p);
    }
  }

  lemma RemoveSees(root: Node, cs: Path, q: Path)
    requires cs != [] && HasParent(root, cs)
    ensures See(Remove(root, cs), q) == if cs <= q then Absent else See(root, q)
  {
    if cs <= q {
      assert q == cs + q[|cs|..];
      RemoveUnder(root, cs, q[|cs|..]);
    } else {
      RemoveElsewhere(root, cs, q);
    }
  }

  lemma RemoveKeepsInodes(root: Node, cs: Path, counter: nat)
    requires UniqueInodes(root) && InodesBelow(root, counter)
    requires cs != [] && HasParent(root, cs)
    ensures UniqueInodes(Remove(root, cs)) && InodesBelow(Remove(root, cs), counter)
  {
    var root' := Remove(root, cs);
    forall p: Path
      ensures See(root', p).Present? ==> See(root', p) == See(root, p)
    {
      RemoveSees(root, cs, p);
    }
  }

  /** Where a path of the moved tree was before the move. */
  function Origin(from: Path, to: Path, q: Path): Path {
    if to <= q then from + q[|to|..] else q
  }

  lemma MoveSees(root: Node, from: Path, to: Path, q: Path)
    requires from != [] && to != [] && from != to && CanMove(root, from, to)
    requires See(Move(root, from, to), q).Present?
    ensures See(Move(root, from, to), q) == See(root, Origin(from, to, q))
    ensures !(to <= q) ==> !(from <= q)
  {
    if to <= q {
      assert q == to + q[|to|..];
      MoveUnderNew(root, from, to, q[|to|..]);
    } else if from <= q {
      assert q == from + q[|from|..];
      MoveUnderOld(root, from, to, q[|from|..]);
    } else {
      MoveElsewhere(root, from, to, q);
    }
  }

  lemma MoveKeepsInodes(root: Node, from: Path, to: Path, counter: nat)
    requires UniqueInodes(root) && InodesBelow(root, counter)
    requires from != [] && to != [] && from != to && CanMove(root, from, to)
    ensures UniqueInodes(Move(root, from, to)) && InodesBelow(Move(root, from, to), counter)
  {
    var root' := Move(root, from, to);
    forall p: Path | See(root', p).Present?
      ensures See(root', p) == See(root, Origin(from, to, p))
      ensures !(to <= p) ==> !(from <= p)
    {
      MoveSees(root, from, to, p);
    }
    forall p: Path, q: Path | See(root', p).Present? && See(root', q).Present? &&
                              See(root', p).ino == See(root', q).ino
      ensures p == q
    {
      var op, oq := Origin(from, to, p), Origin(from, to, q);
      assert op == oq;
      if to <= p && to <= q {
        assert p == to + p[|to|..] && q == to + q[|to|..];
        assert op[|from|..] == p[|to|..] && oq[|from|..] == q[|to|..];
      }
    }
  }

  // ---------- changing the content of one file ----------

  lemma ReplaceFileSees(root: Node, cs: Path, content: seq<byte>, q: Path)
    requires Resolve(root, cs).Found? && Resolve(root, cs).node.File?
    ensures See(Replace(root, cs, Resolve(root, cs).node.(content := content)), q) ==
            if q == cs then Present(FileKind(content), See(root, cs).ino) else See(root, q)
  {
    var n := Resolve(root, cs).node.(content := content);
    if cs <= q {
      var s := q[|cs|..];
      assert q == cs + s;
      ReplaceUnder(root, cs, n, s);
      ResolveConcat(root, cs, s);
    } else {
      ReplaceElsewhere(root, cs, n, q);
    }
  }

  lemma ReplaceFileKeepsInodes(root: Node, cs: Path, content: seq<byte>, counter: nat)
    requires UniqueInodes(root) && InodesBelow(root, counter)
    requires Resolve(root, cs).Found? && Resolve(root, cs).node.File?
    ensures var root' := Replace(root, cs, Resolve(root, cs).node.(content := content));
            UniqueInodes(root') && InodesBelow(root', counter)
  {
    var root' := Replace(root, cs, Resolve(root, cs).node.(content := content));
    forall p: Path
      ensures See(root', p).Present? <==> See(root, p).Present?
      ensures See(root', p).Present? ==> See(root', p).ino == See(root, p).ino
    {
      ReplaceFileSees(root, cs, content, p);
    }
  }
}
