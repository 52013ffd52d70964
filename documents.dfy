/** The parsed configuration documents: what `json.load` and `yaml.safe_load`
    return, as far as the scripts use it, and Python's subscript read
    `d[a][b]...` and subscript assignment `d[a]...[z] = v` on them. */
module Documents {
  import opened Results

  /** A nested document of dicts, lists and string leaves. */
  datatype Doc = Str(s: string) | List(items: seq<Doc>) | Obj(fields: map<string, Doc>)

  /** One subscript: `["key"]` on a dict or `[i]` on a list. */
  datatype Step = Key(k: string) | Index(i: nat)

  type Path = seq<Step>

  predicate IsPrefix(p: Path, q: Path)
  {
    |p| <= |q| && q[..|p|] == p
  }

  /** Two paths neither of which leads into the other's subtree. */
  predicate Disjoint(p: Path, q: Path)
  {
    !IsPrefix(p, q) && !IsPrefix(q, p)
  }

  /** `d[s]` on a container: `None` where Python raises KeyError, IndexError or
      TypeError. A string is treated as a leaf, so any subscript of it is
      `None` too, although Python's `s[i]` returns the i-th character. */
  function Child(d: Doc, s: Step): Option<Doc>
  {
    match (d, s)
    case (Obj(m), Key(k)) => if k in m then Some(m[k]) else None
    case (List(xs), Index(i)) => if i < |xs| then Some(xs[i]) else None
    case _ => None
  }

  /** `d[s] = v` on the container `d`: a dict gains or overwrites the key, a
      list needs the index to exist already. */
  function Assign(d: Doc, s: Step, v: Doc): (r: Option<Doc>)
    ensures r.Some? ==> Child(r.value, s) == Some(v)
  {
    match (d, s)
    case (Obj(m), Key(k)) => Some(Obj(m[k := v]))
    case (List(xs), Index(i)) => if i < |xs| then Some(List(xs[i := v])) else None
    case _ => None
  }

  /** `d[p0][p1]...[pn]`. */
  function Get(d: Doc, p: Path): Option<Doc>
    decreases |p|
  {
    if |p| == 0 then Some(d)
    else
      match Child(d, p[0])
      case None => None
      case Some(c) => Get(c, p[1..])
  }

  /** `d[p0]...[pn-1][pn] = v`: the prefix is read, then its last container is
      updated. The document as a whole is replaced for the empty path. */
  function Set(d: Doc, p: Path, v: Doc): Option<Doc>
    decreases |p|
  {
    if |p| == 0 then Some(v)
    else if |p| == 1 then Assign(d, p[0], v)
    else
      match Child(d, p[0])
      case None => None
      case Some(c) =>
        match Set(c, p[1..], v)
        case None => None
        case Some(c') => Assign(d, p[0], c')
  }

  // ---------------------------------------------------------------------------
  // One step

  /** Assigning one child leaves the other children as they were. */
  lemma AssignOther(d: Doc, s: Step, v: Doc, s': Step)
    requires Assign(d, s, v).Some? && s != s'
    ensures Child(Assign(d, s, v).value, s') == Child(d, s')
  {
  }

  /** Assigning a child the value it already has changes nothing. */
  lemma AssignSame(d: Doc, s: Step, v: Doc)
    requires Child(d, s) == Some(v)
    ensures Assign(d, s, v) == Some(d)
  {
    match (d, s)
    case (Obj(m), Key(k)) => assert m[k := v] == m;
    case (List(xs), Index(i)) => assert xs[i := v] == xs;
  }

  /** An existing child can be assigned. */
  lemma AssignExisting(d: Doc, s: Step, v: Doc)
    requires Child(d, s).Some?
    ensures Assign(d, s, v).Some?
  {
  }

  /** The second of two assignments to one child wins. */
  lemma AssignAssign(d: Doc, s: Step, v: Doc, w: Doc)
    requires Assign(d, s, v).Some?
    ensures Assign(Assign(d, s, v).value, s, w) == Assign(d, s, w)
  {
    match (d, s)
    case (Obj(m), Key(k)) => assert m[k := v][k := w] == m[k := w];
    case (List(xs), Index(i)) => assert xs[i := v][i := w] == xs[i := w];
  }

  /** Assignments to two different children commute. */
  lemma AssignCommute(d: Doc, s: Step, v: Doc, t: Step, w: Doc)
    requires s != t && Assign(d, s, v).Some? && Assign(d, t, w).Some?
    ensures Assign(Assign(d, s, v).value, t, w).Some?
    ensures Assign(Assign(d, s, v).value, t, w) == Assign(Assign(d, t, w).value, s, v)
  {
    match (d, s, t)
    case (Obj(m), Key(k), Key(j)) => assert m[k := v][j := w] == m[j := w][k := v];
    case (List(xs), Index(i), Index(j)) => assert xs[i := v][j := w] == xs[j := w][i := v];
  }

  // ---------------------------------------------------------------------------
  // Whole paths

  /** `d[p0]...[pn]` is `d[p0]...[pn-1]` subscripted once more: the chain is
      read left to right, and fails as soon as one subscript does. */
  lemma {:induction false} GetLast(d: Doc, p: Path)
    requires |p| > 0
    ensures Get(d, p) == (match Get(d, p[..|p| - 1]) case None => None case Some(c) => Child(c, p[|p| - 1]))
    decreases |p|
  {
    if |p| > 1 {
      match Child(d, p[0])
      case None =>
      case Some(c) =>
        GetLast(c, p[1..]);
        assert p[1..][..|p| - 2] == p[..|p| - 1][1..];
    }
  }

  /** Two disjoint paths through the same first step stay disjoint after it. */
  lemma DisjointTails(p: Path, q: Path)
    requires Disjoint(p, q) && |p| > 0 && |q| > 0 && p[0] == q[0]
    ensures |p| > 1 && |q| > 1 && Disjoint(p[1..], q[1..])
  {
    PrefixCons(p, q);
    PrefixCons(q, p);
    assert IsPrefix(p[1..][..0], q[1..]) && IsPrefix(q[1..][..0], p[1..]);
  }

  /** A common first step does not change whether one path is a prefix of another. */
  lemma PrefixCons(p: Path, q: Path)
    requires |p| > 0 && |q| > 0 && p[0] == q[0]
    ensures IsPrefix(p, q) <==> IsPrefix(p[1..], q[1..])
  {
    assert p == [p[0]] + p[1..];
    if |p| <= |q| {
      assert q[..|p|] == [q[0]] + q[1..][..|p| - 1];
    }
  }

  /** After `d[p] = v`, reading `d[p]` gives `v`. */
  lemma {:induction false} GetSet(d: Doc, p: Path, v: Doc)
    requires Set(d, p, v).Some?
    ensures Get(Set(d, p, v).value, p) == Some(v)
    decreases |p|
  {
    if |p| == 1 {
      assert Get(Set(d, p, v).value, p) == Get(v, p[1..]);
    } else if |p| > 1 {
      var c := Child(d, p[0]).value;
      GetSet(c, p[1..], v);
    }
  }

  /** `d[p] = v` leaves every path disjoint from `p` as it was. */
  lemma {:induction false} GetSetOther(d: Doc, p: Path, v: Doc, q: Path)
    requires Set(d, p, v).Some? && Disjoint(p, q)
    ensures Get(Set(d, p, v).value, q) == Get(d, q)
    decreases |p|
  {
    assert |p| > 0 && |q| > 0 by {
      assert IsPrefix([], q) && IsPrefix([], p);
    }
    var d' := Set(d, p, v).value;
    if p[0] != q[0] {
      if |p| == 1 {
        AssignOther(d, p[0], v, q[0]);
      } else {
        var c' := Set(Child(d, p[0]).value, p[1..], v).value;
        AssignOther(d, p[0], c', q[0]);
      }
    } else {
      DisjointTails(p, q);
      var c := Child(d, p[0]).value;
      GetSetOther(c, p[1..], v, q[1..]);
    }
  }

  /** Every path that can be read can be assigned. */
  lemma {:induction false} SetExisting(d: Doc, p: Path, v: Doc)
    requires Get(d, p).Some?
    ensures Set(d, p, v).Some?
    decreases |p|
  {
    if |p| == 1 {
      AssignExisting(d, p[0], v);
    } else if |p| > 1 {
      var c := Child(d, p[0]).value;
      SetExisting(c, p[1..], v);
      AssignExisting(d, p[0], Set(c, p[1..], v).value);
    }
  }

  /** A path that ends in a list index can be assigned only if it can be read. */
  lemma {:induction false} SetIndexExists(d: Doc, p: Path, v: Doc)
    requires |p| > 0 && p[|p| - 1].Index? && Set(d, p, v).Some?
    ensures Get(d, p).Some?
    decreases |p|
  {
    if |p| > 1 {
      var c := Child(d, p[0]).value;
      assert p[1..][|p| - 2] == p[|p| - 1];
      SetIndexExists(c, p[1..], v);
    }
  }

  /** Writing the value a path already holds changes nothing. */
  lemma {:induction false} SetSame(d: Doc, p: Path, v: Doc)
    requires Get(d, p) == Some(v)
    ensures Set(d, p, v) == Some(d)
    decreases |p|
  {
    if |p| == 1 {
      AssignSame(d, p[0], v);
    } else if |p| > 1 {
      var c := Child(d, p[0]).value;
      SetSame(c, p[1..], v);
      AssignSame(d, p[0], c);
    }
  }

  /** Of two writes to one path, the second wins. */
  lemma {:induction false} SetSet(d: Doc, p: Path, v: Doc, w: Doc)
    requires Set(d, p, v).Some?
    ensures Set(Set(d, p, v).value, p, w) == Set(d, p, w)
    decreases |p|
  {
    if |p| == 1 {
      AssignAssign(d, p[0], v, w);
    } else if |p| > 1 {
      var c := Child(d, p[0]).value;
      var cv := Set(c, p[1..], v).value;
      SetSet(c, p[1..], v, w);
      var d1 := Assign(d, p[0], cv).value;
      assert Child(d1, p[0]) == Some(cv);
      SetExisting(cv, p[1..], w) by {
        GetSet(c, p[1..], v);
      }
      SetAnyValue(c, p[1..], v, w);
      AssignAssign(d, p[0], cv, Set(c, p[1..], w).value);
    }
  }

  /** Whether a write succeeds does not depend on the value written: only the
      path, read up to its last container, decides. */
  lemma {:induction false} SetAnyValue(d: Doc, p: Path, v: Doc, w: Doc)
    ensures Set(d, p, v).Some? <==> Set(d, p, w).Some?
    decreases |p|
  {
    if |p| > 1 && Child(d, p[0]).Some? {
      var c := Child(d, p[0]).value;
      SetAnyValue(c, p[1..], v, w);
      if Set(c, p[1..], v).Some? {
        AssignExisting(d, p[0], Set(c, p[1..], v).value);
        AssignExisting(d, p[0], Set(c, p[1..], w).value);
      }
    }
  }

  /** Writes to two disjoint paths commute. */
  lemma {:induction false} SetCommute(d: Doc, p: Path, v: Doc, q: Path, w: Doc)
    requires Disjoint(p, q) && Set(d, p, v).Some? && Set(d, q, w).Some?
    ensures Set(Set(d, p, v).value, q, w).Some?
    ensures Set(Set(d, p, v).value, q, w) == Set(Set(d, q, w).value, p, v)
    decreases |p|
  {
    assert |p| > 0 && |q| > 0 by {
      assert IsPrefix([], q) && IsPrefix([], p);
    }
    if p[0] != q[0] {
      var cp := if |p| == 1 then v else Set(Child(d, p[0]).value, p[1..], v).value;
      var cq := if |q| == 1 then w else Set(Child(d, q[0]).value, q[1..], w).value;
      assert Set(d, p, v) == Assign(d, p[0], cp);
      assert Set(d, q, w) == Assign(d, q[0], cq);
      AssignCommute(d, p[0], cp, q[0], cq);
      var dp := Assign(d, p[0], cp).value;
      var dq := Assign(d, q[0], cq).value;
      AssignOther(d, p[0], cp, q[0]);
      AssignOther(d, q[0], cq, p[0]);
      assert Set(dp, q, w) == Assign(dp, q[0], cq);
      assert Set(dq, p, v) == Assign(dq, p[0], cp);
    } else {
      DisjointTails(p, q);
      var s := p[0];
      var c := Child(d, s).value;
      SetCommute(c, p[1..], v, q[1..], w);
      var cp := Set(c, p[1..], v).value;
      var cq := Set(c, q[1..], w).value;
      var cpq := Set(cp, q[1..], w).value;
      var dp := Assign(d, s, cp).value;
      var dq := Assign(d, s, cq).value;
      assert Child(dp, s) == Some(cp);
      assert Child(dq, s) == Some(cq);
      AssignAssign(d, s, cp, cpq);
      AssignAssign(d, s, cq, cpq);
      AssignExisting(dp, s, cpq);
    }
  }
}
