/** The parse result and the `lodash.set` deep assignment into it (index.js:88, index.js:100). */
module Tree {
  import opened Wrappers
  import opened Bytes

  /** A JavaScript value in the result: a string value or a plain object. */
  datatype Node = Leaf(text: Text) | Obj(fields: map<Text, Node>)

  /** A fresh `{}`. */
  const Empty: Node := Obj(map[])

  /** The property `k` of `n`, if `n` is an object that has it. */
  function Child(n: Node, k: Text): Option<Node>
  {
    match n
    case Leaf(_) => None
    case Obj(m) => if k in m then Some(m[k]) else None
  }

  /** The value reached from `n` by following the property names of `p`. */
  function Get(n: Node, p: seq<Text>): Option<Node>
    decreases |p|
  {
    if p == [] then Some(n)
    else
      match Child(n, p[0])
      case None => None
      case Some(c) => Get(c, p[1..])
  }

  /** `set(n, p, v)` on an object `n`: walk `p`, keep every object on the way, put a fresh
      `{}` where the way holds no object (missing or a string), and assign `v` at the end. */
  function DeepSet(n: Node, p: seq<Text>, v: Node): (r: Node)
    requires n.Obj? && p != []
    ensures r.Obj? && p[0] in r.fields
    ensures r.fields.Keys == n.fields.Keys + {p[0]}
    decreases |p|
  {
    var m := n.fields;
    if |p| == 1 then Obj(m[p[0] := v])
    else
      var c := if p[0] in m && m[p[0]].Obj? then m[p[0]] else Empty;
      Obj(m[p[0] := DeepSet(c, p[1..], v)])
  }

  /** Neither path is a prefix of the other: they part at some name. */
  predicate Diverge(p: seq<Text>, q: seq<Text>)
  {
    !(p <= q) && !(q <= p)
  }

  /** After `set(n, p, v)`, everything below `p` is read from `v`; in particular the
      value at `p` is `v`. */
  lemma {:induction false} GetBelowSet(n: Node, p: seq<Text>, v: Node, q: seq<Text>)
    requires n.Obj? && p != []
    ensures Get(DeepSet(n, p, v), p + q) == Get(v, q)
    decreases |p|
  {
    var r := DeepSet(n, p, v);
    assert (p + q)[0] == p[0];
    assert (p + q)[1..] == p[1..] + q;
    if |p| == 1 {
      assert p[1..] + q == q;
    } else {
      var m := n.fields;
      var c := if p[0] in m && m[p[0]].Obj? then m[p[0]] else Empty;
      GetBelowSet(c, p[1..], v, q);
    }
  }

  /** After `set(n, p, v)` the value at `p` is `v`. */
  lemma GetAfterSet(n: Node, p: seq<Text>, v: Node)
    requires n.Obj? && p != []
    ensures Get(DeepSet(n, p, v), p) == Some(v)
  {
    GetBelowSet(n, p, v, []);
    assert p + [] == p;
  }

  /** `set(n, p, v)` leaves every path that parts from `p` as it was. */
  lemma {:induction false} GetAwayFromSet(n: Node, p: seq<Text>, v: Node, q: seq<Text>)
    requires n.Obj? && p != []
    requires Diverge(p, q)
    ensures Get(DeepSet(n, p, v), q) == Get(n, q)
    decreases |p|
  {
    var r := DeepSet(n, p, v);
    assert q != [];
    if q[0] != p[0] {
      assert Child(r, q[0]) == Child(n, q[0]);
    } else {
      assert |p| > 1;
      var m := n.fields;
      var c := if p[0] in m && m[p[0]].Obj? then m[p[0]] else Empty;
      assert Diverge(p[1..], q[1..]);
      GetAwayFromSet(c, p[1..], v, q[1..]);
      if Child(n, q[0]) == Some(c) {
      } else {
        // the way held a string or nothing: both sides read nothing below it
        assert c == Empty;
        NothingBelowEmpty(q[1..]);
        assert Get(c, q[1..]) == None;
        if p[0] in m { NothingBelowLeaf(m[p[0]], q[1..]); }
      }
    }
  }

  /** Every strict prefix of `p` leads to an object after `set(n, p, v)`. */
  lemma {:induction false} ObjectsAboveSet(n: Node, p: seq<Text>, v: Node, k: nat)
    requires n.Obj? && k < |p|
    ensures Get(DeepSet(n, p, v), p[..k]).Some?
    ensures Get(DeepSet(n, p, v), p[..k]).value.Obj?
    decreases k
  {
    if k > 0 {
      var m := n.fields;
      var c := if p[0] in m && m[p[0]].Obj? then m[p[0]] else Empty;
      assert p[..k][0] == p[0];
      assert p[..k][1..] == p[1..][..k - 1];
      ObjectsAboveSet(c, p[1..], v, k - 1);
    }
  }

  /** Assigning twice at the same path is the same as assigning the second value once:
      the last write wins and the first leaves no trace. */
  lemma {:induction false} SetOverwrites(n: Node, p: seq<Text>, v1: Node, v2: Node)
    requires n.Obj? && p != []
    ensures DeepSet(DeepSet(n, p, v1), p, v2) == DeepSet(n, p, v2)
    decreases |p|
  {
    if |p| > 1 {
      var m := n.fields;
      var c := if p[0] in m && m[p[0]].Obj? then m[p[0]] else Empty;
      SetOverwrites(c, p[1..], v1, v2);
      var m1 := DeepSet(n, p, v1).fields;
      assert m1[p[0]] == DeepSet(c, p[1..], v1);
      assert m1[p[0] := DeepSet(c, p[1..], v2)] == m[p[0] := DeepSet(c, p[1..], v2)];
    } else {
      assert n.fields[p[0] := v1][p[0] := v2] == n.fields[p[0] := v2];
    }
  }

  lemma NothingBelowEmpty(q: seq<Text>)
    requires q != []
    ensures Get(Empty, q) == None
  {
  }

  lemma NothingBelowLeaf(n: Node, q: seq<Text>)
    requires n.Leaf? && q != []
    ensures Get(n, q) == None
  {
  }
}
