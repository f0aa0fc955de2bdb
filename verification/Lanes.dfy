/** The simple view of one recipient's storage: an append-only log of everything ever stored, of which
    a prefix has been dropped. Mail and receipts are both kept in lanes. */
module Lanes {

  /** `log` only ever grows. Its first `Base()` entries are gone, each either acknowledged (and then
      kept in `acked`, whose keys are remembered) or evicted; the rest are queued. */
  datatype Lane<T> = Lane(log: seq<T>, acked: seq<T>, evicted: nat) {
    ghost function Base(): nat {
      |acked| + evicted
    }

    ghost function Queue(): seq<T> {
      if Base() <= |log| then log[Base()..] else []
    }
  }

  ghost function KeySet<T>(q: seq<T>, key: T -> string): set<string> {
    set x | x in q :: key(x)
  }

  ghost function KeyAt<T>(q: seq<T>, key: T -> string, i: nat): string
    requires i < |q|
  {
    key(q[i])
  }

  ghost predicate DistinctKeys<T>(q: seq<T>, key: T -> string) {
    forall i, j :: 0 <= i < j < |q| ==> KeyAt(q, key, i) != KeyAt(q, key, j)
  }

  /** What every reachable lane satisfies. */
  ghost predicate LaneOk<T>(l: Lane<T>, key: T -> string, cap: nat) {
    && l.Base() <= |l.log|
    && |l.Queue()| <= cap
    && DistinctKeys(l.Queue(), key) && DistinctKeys(l.acked, key)
    && KeySet(l.Queue(), key) !! KeySet(l.acked, key)
  }

  ghost predicate LanesOk<T>(m: map<string, Lane<T>>, key: T -> string, cap: nat) {
    forall r :: r in m ==> LaneOk(m[r], key, cap)
  }

  ghost function LaneOf<T>(m: map<string, Lane<T>>, r: string): Lane<T> {
    if r in m then m[r] else Lane([], [], 0)
  }

  ghost predicate Knows<T>(l: Lane<T>, key: T -> string, k: string) {
    k in KeySet(l.Queue(), key) || k in KeySet(l.acked, key)
  }

  /** Append one entry and, past capacity, let go of the oldest. */
  ghost function Append<T>(l: Lane<T>, cap: nat, x: T): Lane<T> {
    var pending := |l.Queue()| + 1;
    Lane(l.log + [x], l.acked, l.evicted + (if pending > cap then pending - cap else 0))
  }

  function Min(a: nat, b: nat): nat {
    if a <= b then a else b
  }

  /** Drop the first `n` queued entries, remembering them. */
  ghost function Acknowledge<T>(l: Lane<T>, n: nat): Lane<T> {
    Lane(l.log, l.acked + l.Queue()[..Min(n, |l.Queue()|)], l.evicted)
  }

  lemma LaneOfOk<T>(m: map<string, Lane<T>>, key: T -> string, cap: nat, r: string)
    requires LanesOk(m, key, cap)
    ensures LaneOk(LaneOf(m, r), key, cap)
  {
  }

  lemma LaneOfUpdate<T>(m: map<string, Lane<T>>, x: string, l: Lane<T>, r: string)
    ensures LaneOf(m[x := l], r) == if r == x then l else LaneOf(m, r)
  {
  }

  lemma KeySetConcat<T>(a: seq<T>, b: seq<T>, key: T -> string)
    ensures KeySet(a + b, key) == KeySet(a, key) + KeySet(b, key)
  {
    forall k | k in KeySet(a, key) + KeySet(b, key)
      ensures k in KeySet(a + b, key)
    {
      if k in KeySet(a, key) {
        var x :| x in a && key(x) == k;
        assert x in a + b;
      } else {
        var x :| x in b && key(x) == k;
        assert x in a + b;
      }
    }
  }

  lemma DistinctSplit<T>(q: seq<T>, key: T -> string, n: nat)
    requires DistinctKeys(q, key) && n <= |q|
    ensures KeySet(q[..n], key) !! KeySet(q[n..], key)
    ensures KeySet(q, key) == KeySet(q[..n], key) + KeySet(q[n..], key)
  {
    assert q == q[..n] + q[n..];
    KeySetConcat(q[..n], q[n..], key);
    forall k | k in KeySet(q[..n], key)
      ensures k !in KeySet(q[n..], key)
    {
      var x :| x in q[..n] && key(x) == k;
      var i :| 0 <= i < n && q[i] == x;
      forall y | y in q[n..]
        ensures key(y) != k
      {
        var j :| n <= j < |q| && q[j] == y;
        assert KeyAt(q, key, i) != KeyAt(q, key, j);
      }
    }
  }

  lemma DistinctDrop<T>(q: seq<T>, key: T -> string, n: nat)
    requires DistinctKeys(q, key) && n <= |q|
    ensures DistinctKeys(q[n..], key)
  {
    forall i, j | 0 <= i < j < |q[n..]|
      ensures KeyAt(q[n..], key, i) != KeyAt(q[n..], key, j)
    {
      assert KeyAt(q, key, n + i) != KeyAt(q, key, n + j);
    }
  }

  lemma DistinctTake<T>(q: seq<T>, key: T -> string, n: nat)
    requires DistinctKeys(q, key) && n <= |q|
    ensures DistinctKeys(q[..n], key)
  {
    forall i, j | 0 <= i < j < |q[..n]|
      ensures KeyAt(q[..n], key, i) != KeyAt(q[..n], key, j)
    {
      assert KeyAt(q, key, i) != KeyAt(q, key, j);
    }
  }

  lemma DistinctConcat<T>(a: seq<T>, b: seq<T>, key: T -> string)
    requires DistinctKeys(a, key) && DistinctKeys(b, key) && KeySet(a, key) !! KeySet(b, key)
    ensures DistinctKeys(a + b, key)
  {
    forall i, j | 0 <= i < j < |a + b|
      ensures KeyAt(a + b, key, i) != KeyAt(a + b, key, j)
    {
      if j < |a| {
        assert KeyAt(a, key, i) != KeyAt(a, key, j);
      } else if i >= |a| {
        assert KeyAt(b, key, i - |a|) != KeyAt(b, key, j - |a|);
      } else {
        assert a[i] in a && b[j - |a|] in b;
        assert key(a[i]) in KeySet(a, key) && key(b[j - |a|]) in KeySet(b, key);
      }
    }
  }

  lemma OneKey<T>(x: T, key: T -> string)
    ensures DistinctKeys([x], key) && KeySet([x], key) == {key(x)}
  {
  }

  /** Without repeated keys there are as many keys as entries. */
  lemma {:induction false} KeyCount<T>(q: seq<T>, key: T -> string)
    requires DistinctKeys(q, key)
    ensures |KeySet(q, key)| == |q|
  {
    if q != [] {
      DistinctSplit(q, key, 1);
      DistinctDrop(q, key, 1);
      OneKey(q[0], key);
      assert q[..1] == [q[0]];
      KeyCount(q[1..], key);
    } else {
      assert KeySet(q, key) == {};
    }
  }

  /** What a lane knows is as large as its queue and its acknowledged entries together. */
  lemma KnownCount<T>(l: Lane<T>, key: T -> string, cap: nat)
    requires LaneOk(l, key, cap)
    ensures |KeySet(l.Queue(), key) + KeySet(l.acked, key)| == |l.Queue()| + |l.acked|
  {
    KeyCount(l.Queue(), key);
    KeyCount(l.acked, key);
  }

  lemma AppendShape<T>(l: Lane<T>, cap: nat, x: T)
    requires l.Base() <= |l.log| && |l.Queue()| <= cap && cap >= 1
    ensures var l' := Append(l, cap, x);
      var d := l'.evicted - l.evicted;
      && d == (if |l.Queue()| == cap then 1 else 0)
      && l'.Base() <= |l'.log| && |l'.Queue()| <= cap
      && l'.Queue() == (l.Queue() + [x])[d..]
  {
  }

  lemma PushKeys<T>(q: seq<T>, key: T -> string, x: T, d: nat)
    requires DistinctKeys(q, key) && key(x) !in KeySet(q, key) && d <= |q| + 1
    ensures DistinctKeys((q + [x])[d..], key)
    ensures KeySet((q + [x])[d..], key) == KeySet(q, key) + {key(x)} - KeySet((q + [x])[..d], key)
    ensures KeySet((q + [x])[..d], key) <= KeySet(q, key) + {key(x)}
  {
    hide DistinctKeys, KeySet;
    OneKey(x, key);
    DistinctConcat(q, [x], key);
    KeySetConcat(q, [x], key);
    DistinctSplit(q + [x], key, d);
    DistinctDrop(q + [x], key, d);
  }

  /** The queue after an append, and the books it keeps. */
  lemma AppendQueue<T>(l: Lane<T>, key: T -> string, cap: nat, x: T)
    requires LaneOk(l, key, cap) && cap >= 1 && !Knows(l, key, key(x))
    ensures var l' := Append(l, cap, x);
      var d := l'.evicted - l.evicted;
      && LaneOk(l', key, cap)
      && d == (if |l.Queue()| == cap then 1 else 0)
      && l'.Queue() == (l.Queue() + [x])[d..]
      && KeySet(l'.Queue(), key) == KeySet(l.Queue(), key) + {key(x)} - KeySet((l.Queue() + [x])[..d], key)
  {
    hide DistinctKeys, KeySet, Append, Lane.Queue;
    var l' := Append(l, cap, x);
    AppendShape(l, cap, x);
    PushKeys(l.Queue(), key, x, l'.evicted - l.evicted);
    AppendKeepsAcked(l, cap, x);
  }

  lemma AppendKeepsAcked<T>(l: Lane<T>, cap: nat, x: T)
    ensures Append(l, cap, x).acked == l.acked && Append(l, cap, x).log == l.log + [x]
  {
  }

  lemma AcknowledgeOk<T>(l: Lane<T>, key: T -> string, cap: nat, n: nat)
    requires LaneOk(l, key, cap)
    ensures var l' := Acknowledge(l, n);
      var k := Min(n, |l.Queue()|);
      && LaneOk(l', key, cap)
      && l'.Queue() == l.Queue()[k..]
      && KeySet(l'.Queue(), key) + KeySet(l'.acked, key) == KeySet(l.Queue(), key) + KeySet(l.acked, key)
  {
    var l' := Acknowledge(l, n);
    var k := Min(n, |l.Queue()|);
    assert l'.Queue() == l.Queue()[k..];
    DistinctDrop(l.Queue(), key, k);
    DistinctTake(l.Queue(), key, k);
    DistinctSplit(l.Queue(), key, k);
    KeySetConcat(l.acked, l.Queue()[..k], key);
    DistinctConcat(l.acked, l.Queue()[..k], key);
  }

  lemma AppendKeepsLanes<T>(m: map<string, Lane<T>>, key: T -> string, cap: nat, r: string, x: T)
    requires LanesOk(m, key, cap) && cap >= 1 && !Knows(LaneOf(m, r), key, key(x))
    ensures LanesOk(m[r := Append(LaneOf(m, r), cap, x)], key, cap)
  {
    LaneOfOk(m, key, cap, r);
    AppendQueue(LaneOf(m, r), key, cap, x);
  }

  lemma RemoveKeepsLanes<T>(m: map<string, Lane<T>>, key: T -> string, cap: nat, r: string)
    requires LanesOk(m, key, cap)
    ensures LanesOk(m - {r}, key, cap)
  {
    forall k | k in m - {r}
      ensures LaneOk((m - {r})[k], key, cap)
    {
      assert (m - {r})[k] == m[k];
    }
  }

  lemma AcknowledgeKeepsLanes<T>(m: map<string, Lane<T>>, key: T -> string, cap: nat, r: string, n: nat)
    requires LanesOk(m, key, cap) && r in m
    ensures LanesOk(m[r := Acknowledge(m[r], n)], key, cap)
  {
    AcknowledgeOk(m[r], key, cap, n);
  }

  /** Every entry ever logged is queued, acknowledged or evicted. */
  lemma Conservation<T>(l: Lane<T>, key: T -> string, cap: nat)
    requires LaneOk(l, key, cap)
    ensures |l.log| == |l.Queue()| + |l.acked| + l.evicted
    ensures l.log == l.log[..l.Base()] + l.Queue()
  {
  }
}
