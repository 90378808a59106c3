/** The already-decoded CORECONF payload: what `cbor2.loads` gives back for a
    SID-keyed message (RFC 9254), a tree of maps keyed by integers whose leaves
    are integers or text strings.  `At` reads a path of keys as Python's chained
    `x[k1][k2]...[kn]` does, and `Assign` performs the chained item assignment
    `x[k1]...[kn-1][kn] = v`. */
module Coreconf {
  import opened Wrappers

  datatype Node =
    | Int(value: int)
    | Text(text: string)
    | Map(entries: map<int, Node>)

  /** Why a chained subscript fails: a key missing from a map on the way
      (Python's `KeyError`), or a step into something that is not a map
      (Python's `TypeError` or `IndexError`). */
  datatype PathError = MissingKey(key: int) | NotAMap

  /** The node reached from `n` by following `path`, if every step exists. */
  function At(n: Node, path: seq<int>): Option<Node>
    decreases |path|
  {
    if path == [] then Some(n)
    else
      match n
      case Map(m) => if path[0] in m then At(m[path[0]], path[1..]) else None
      case _ => None
  }

  /** The path leading to the map that the last key of `path` is stored in. */
  function Parent(path: seq<int>): seq<int>
    requires path != []
  {
    path[..|path| - 1]
  }

  /** A chained read is its last subscript applied to the read of the parent
      path: it reaches a node exactly when the parent path reaches a map holding
      the last key, and that node is the map's entry.  A missing key or a step
      into a leaf gives `None`, wherever it happens on the way. */
  lemma {:induction false} AtLast(n: Node, path: seq<int>)
    requires path != []
    ensures At(n, path)
            == (match At(n, Parent(path))
                case Some(Map(m)) => if path[|path| - 1] in m then Some(m[path[|path| - 1]]) else None
                case _ => None)
    decreases |path|
  {
    if |path| > 1 && n.Map? && path[0] in n.entries {
      AtLast(n.entries[path[0]], path[1..]);
      assert Parent(path)[1..] == Parent(path[1..]);
      assert path[|path| - 1] == path[1..][|path[1..]| - 1];
    }
  }

  /** Neither path is a prefix of the other: they address unrelated nodes. */
  predicate Disjoint(p: seq<int>, q: seq<int>) {
    !(p <= q) && !(q <= p)
  }

  /** `n[path[0]]...[path[|path|-2]][path[|path|-1]] = v`.  Every key but the last
      must already be present; the last one is inserted or overwritten. */
  function Assign(n: Node, path: seq<int>, v: Node): (r: Result<Node, PathError>)
    requires path != []
    decreases |path|
    ensures r.Success? <==> At(n, Parent(path)).Some? && At(n, Parent(path)).value.Map?
    ensures r.Success? ==> r.value.Map? && At(r.value, path) == Some(v)
  {
    match n
    case Map(m) =>
      if |path| == 1 then
        Success(Map(m[path[0] := v]))
      else if path[0] !in m then
        Failure(MissingKey(path[0]))
      else
        assert Parent(path)[1..] == Parent(path[1..]);
        (match Assign(m[path[0]], path[1..], v)
         case Success(child) => Success(Map(m[path[0] := child]))
         case Failure(e) => Failure(e))
    case _ => Failure(NotAMap)
  }

  /** An assignment changes the addressed node and nothing else: paths unrelated
      to `p` read as before, paths through `p` now read inside `v`, and every map
      on the way to `p` is still a map. */
  lemma {:induction false} AssignFrame(n: Node, p: seq<int>, v: Node, q: seq<int>)
    requires p != [] && Assign(n, p, v).Success?
    ensures Disjoint(p, q) ==> At(Assign(n, p, v).value, q) == At(n, q)
    ensures p <= q ==> At(Assign(n, p, v).value, q) == At(v, q[|p|..])
    ensures q < p ==> At(Assign(n, p, v).value, q).Some? && At(Assign(n, p, v).value, q).value.Map?
  {
    var r := Assign(n, p, v).value;
    var m := n.entries;
    if q != [] {
      if q[0] != p[0] {
        assert Disjoint(p, q);
      } else if |p| == 1 {
        assert p <= q && q[|p|..] == q[1..];
      } else {
        AssignFrame(m[p[0]], p[1..], v, q[1..]);
        assert Disjoint(p, q) ==> Disjoint(p[1..], q[1..]);
        assert p <= q ==> p[1..] <= q[1..] && q[|p|..] == q[1..][|p[1..]|..];
        assert q < p ==> q[1..] < p[1..];
      }
    }
  }

  /** Last write wins: assigning twice at the same path leaves only the second
      value, whatever the first one was. */
  lemma {:induction false} AssignOverwrite(n: Node, p: seq<int>, a: Node, b: Node)
    requires p != [] && Assign(n, p, a).Success?
    ensures Assign(Assign(n, p, a).value, p, b) == Assign(n, p, b)
  {
    var m := n.entries;
    if |p| == 1 {
      assert m[p[0] := a][p[0] := b] == m[p[0] := b];
    } else {
      var c := m[p[0]];
      AssignOverwrite(c, p[1..], a, b);
      var ca := Assign(c, p[1..], a).value;
      assert m[p[0] := ca][p[0] := Assign(ca, p[1..], b).value] == m[p[0] := Assign(c, p[1..], b).value];
    }
  }

  /** Assignments at unrelated paths do not interfere: both orders succeed and
      build the same tree. */
  lemma {:induction false} AssignCommute(n: Node, p: seq<int>, a: Node, q: seq<int>, b: Node)
    requires p != [] && q != [] && Disjoint(p, q)
    requires Assign(n, p, a).Success? && Assign(n, q, b).Success?
    ensures Assign(Assign(n, p, a).value, q, b).Success?
    ensures Assign(Assign(n, q, b).value, p, a).Success?
    ensures Assign(Assign(n, p, a).value, q, b) == Assign(Assign(n, q, b).value, p, a)
  {
    var m := n.entries;
    if p[0] != q[0] {
      var pa := Assign(n, p, a).value.entries;
      var qb := Assign(n, q, b).value.entries;
      assert pa == m[p[0] := pa[p[0]]];
      assert qb == m[q[0] := qb[q[0]]];
      var pq := Assign(Map(pa), q, b).value.entries;
      var qp := Assign(Map(qb), p, a).value.entries;
      assert pq == m[p[0] := pa[p[0]]][q[0] := qb[q[0]]];
      assert qp == m[q[0] := qb[q[0]]][p[0] := pa[p[0]]];
      assert pq == qp;
    } else {
      assert |p| > 1 && |q| > 1;
      assert Disjoint(p[1..], q[1..]);
      var c := m[p[0]];
      AssignCommute(c, p[1..], a, q[1..], b);
      var ca := Assign(c, p[1..], a).value;
      var cb := Assign(c, q[1..], b).value;
      assert Assign(n, p, a).value == Map(m[p[0] := ca]);
      assert Assign(n, q, b).value == Map(m[p[0] := cb]);
      assert m[p[0] := ca][p[0]] == ca;
      assert m[p[0] := cb][p[0]] == cb;
      var cab := Assign(ca, q[1..], b);
      var cba := Assign(cb, p[1..], a);
      assert Assign(Map(m[p[0] := ca]), q, b) == Success(Map(m[p[0] := ca][p[0] := cab.value]));
      assert Assign(Map(m[p[0] := cb]), p, a) == Success(Map(m[p[0] := cb][p[0] := cba.value]));
      assert m[p[0] := ca][p[0] := cab.value] == m[p[0] := cb][p[0] := cba.value];
    }
  }

  /** The map that receives the assignment gains exactly the assigned entry. */
  lemma {:induction false} AssignParent(n: Node, p: seq<int>, v: Node)
    requires p != [] && Assign(n, p, v).Success?
    ensures At(Assign(n, p, v).value, Parent(p)).Some?
    ensures At(Assign(n, p, v).value, Parent(p)).value
            == Map(At(n, Parent(p)).value.entries[p[|p| - 1] := v])
  {
    if |p| > 1 {
      var m := n.entries;
      AssignParent(m[p[0]], p[1..], v);
      assert Parent(p)[1..] == Parent(p[1..]);
      assert p[|p| - 1] == p[1..][|p[1..]| - 1];
    }
  }
}
