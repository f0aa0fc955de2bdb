/** Threads: following reply pointers from a message to its root, which need not exist or be alone. */
module Threads {
  import opened Encoding
  import opened Envelopes
  import opened Ordering

  type Parents = map<string, string>

  // ---- roots ----

  ghost function PathSet(path: seq<string>): set<string> {
    set x | x in path
  }

  /** A walk along reply pointers that visits no message twice. */
  ghost predicate IsChain(parents: Parents, path: seq<string>) {
    && path != []
    && (forall i, j :: 0 <= i < j < |path| ==> path[i] != path[j])
    && (forall i :: 0 <= i < |path| - 1 ==> path[i] in parents && parents[path[i]] == path[i + 1])
  }

  ghost function Last<T>(s: seq<T>): T
    requires s != []
  {
    s[|s| - 1]
  }

  /** A walk that cannot go on: the last message has no recorded parent, or one already visited. */
  ghost predicate IsMaximal(parents: Parents, path: seq<string>) {
    IsChain(parents, path) && (Last(path) !in parents || parents[Last(path)] in path)
  }

  /** The messages with a recorded parent from which a walk has not moved on yet. */
  ghost function Unvisited(parents: Parents, path: seq<string>): set<string>
    requires path != []
  {
    parents.Keys - PathSet(path[..|path| - 1])
  }

  lemma VisitsOne(parents: Parents, path: seq<string>, next: string)
    requires IsChain(parents, path) && Last(path) in parents && parents[Last(path)] == next && next !in path
    ensures IsChain(parents, path + [next]) && Unvisited(parents, path + [next]) < Unvisited(parents, path)
  {
    var longer := path + [next];
    assert longer[..|longer| - 1] == path;
    assert path == path[..|path| - 1] + [Last(path)];
    assert Last(path) !in path[..|path| - 1];
    assert Last(path) in Unvisited(parents, path) && Last(path) !in Unvisited(parents, longer);
    assert forall x :: x in path[..|path| - 1] ==> x in path;
  }

  ghost function Chain(parents: Parents, path: seq<string>): (c: seq<string>)
    requires IsChain(parents, path)
    ensures IsMaximal(parents, c) && path <= c
    decreases Unvisited(parents, path)
  {
    if Last(path) in parents && parents[Last(path)] !in path then
      VisitsOne(parents, path, parents[Last(path)]);
      Chain(parents, path + [parents[Last(path)]])
    else path
  }

  /** Everything reached from `t` before the walk repeats itself, in order. */
  ghost function Ancestors(parents: Parents, t: string): (c: seq<string>)
    ensures IsMaximal(parents, c) && c[0] == t
  {
    Chain(parents, [t])
  }

  ghost function RootOf(parents: Parents, t: string): string {
    Last(Ancestors(parents, t))
  }

  method ResolveRoot(target: string, parents: Parents) returns (root: string)
    ensures root == RootOf(parents, target)
  {
    var current := target;
    var seen := {target};
    ghost var path := [target];
    while true
      invariant IsChain(parents, path) && Last(path) == current && seen == PathSet(path)
      invariant Chain(parents, path) == Ancestors(parents, target)
      decreases Unvisited(parents, path)
    {
      if current !in parents {
        return current;
      }
      var parent := parents[current];
      if parent in seen {
        return current;
      }
      seen := seen + {parent};
      VisitsOne(parents, path, parent);
      path := path + [parent];
      if parent in parents {
        current := parent;
      } else {
        return parent;
      }
    }
  }

  /** A walk that cannot go on is the only one from its start. */
  lemma {:induction false} MaximalUnique(parents: Parents, a: seq<string>, k: nat)
    requires IsMaximal(parents, a) && 1 <= k <= |a|
    ensures IsChain(parents, a[..k]) && Chain(parents, a[..k]) == a
    decreases |a| - k
  {
    if k == |a| {
      assert a[..k] == a;
    } else {
      MaximalUnique(parents, a, k + 1);
      assert a[..k + 1] == a[..k] + [a[k]];
      assert Last(a[..k]) == a[k - 1];
      assert a[k] !in a[..k];
    }
  }

  lemma AncestorsAre(parents: Parents, a: seq<string>)
    requires IsMaximal(parents, a)
    ensures Ancestors(parents, a[0]) == a
  {
    MaximalUnique(parents, a, 1);
    assert a[..1] == [a[0]];
  }

  /** The root is the first ancestor without a recorded parent if there is one; else it lies on a
      cycle of reply pointers: it is among the ancestors of its own parent. */
  lemma RootEndsOrCycles(parents: Parents, t: string)
    ensures var a, r := Ancestors(parents, t), RootOf(parents, t);
      && (forall i :: 0 <= i < |a| - 1 ==> a[i] in parents && a[i] != r)
      && (r in parents ==> r in Ancestors(parents, parents[r]))
  {
    var a, r := Ancestors(parents, t), RootOf(parents, t);
    if r in parents {
      var i :| 0 <= i < |a| && a[i] == parents[r];
      var c := a[i..];
      assert Last(c) == r && parents[r] == c[0];
      assert forall j :: 0 <= j < |c| ==> c[j] == a[i + j];
      AncestorsAre(parents, c);
    }
  }

  lemma StepUp(parents: Parents, m: string)
    requires m in parents && m !in Ancestors(parents, parents[m])
    ensures Ancestors(parents, m) == [m] + Ancestors(parents, parents[m])
  {
    var a := Ancestors(parents, parents[m]);
    var c := [m] + a;
    assert Last(c) == Last(a);
    assert forall x :: x in a ==> x in c;
    forall i, j | 0 <= i < j < |c|
      ensures c[i] != c[j]
    {
      assert c[j] == a[j - 1] && a[j - 1] in a;
    }
    AncestorsAre(parents, c);
  }

  /** A message can only be the last one in the walk from its own parent. */
  lemma OnlyLast(parents: Parents, m: string)
    requires m in parents
    ensures var a := Ancestors(parents, parents[m]);
      forall i :: 0 <= i < |a| - 1 ==> a[i] != m
  {
    var a := Ancestors(parents, parents[m]);
    forall i | 0 <= i < |a| - 1
      ensures a[i] != m
    {
      assert a[i + 1] == parents[a[i]] && a[0] != a[i + 1];
    }
  }

  /** On a cycle the walk from the parent ends where it would come back. */
  lemma WalkRound(parents: Parents, m: string)
    requires m in parents && parents[m] != m && m in Ancestors(parents, parents[m])
    ensures RootOf(parents, parents[m]) == m && RootOf(parents, m) != m
  {
    var a := Ancestors(parents, parents[m]);
    OnlyLast(parents, m);
    assert Last(a) == m && |a| > 1;
    var c := [m] + a[..|a| - 1];
    Rotated(parents, a, c);
    AncestorsAre(parents, c);
  }

  lemma Rotated(parents: Parents, a: seq<string>, c: seq<string>)
    requires IsChain(parents, a) && |a| > 1 && Last(a) in parents && parents[Last(a)] == a[0]
    requires c == [Last(a)] + a[..|a| - 1]
    ensures IsMaximal(parents, c) && c[0] == Last(a) && Last(c) != Last(a)
  {
    assert forall j :: 0 < j < |c| ==> c[j] == a[j - 1];
    forall j | 0 <= j < |c| - 1
      ensures c[j] in parents && parents[c[j]] == c[j + 1]
    {
      if j > 0 {
        assert c[j] == a[j - 1] && c[j + 1] == a[j];
      }
    }
    assert Last(c) == a[|a| - 2] && c[0] in c;
  }

  /** A reply and the message it answers have the same root, exactly unless the reply lies on a cycle of
      two or more messages. The parent need not be among the messages at hand. */
  lemma ReplySharesRoot(parents: Parents, m: string)
    requires m in parents
    ensures RootOf(parents, m) == RootOf(parents, parents[m]) <==>
            parents[m] == m || m !in Ancestors(parents, parents[m])
  {
    if m !in Ancestors(parents, parents[m]) {
      StepUp(parents, m);
    } else if parents[m] != m {
      WalkRound(parents, m);
    }
  }

  /** Two messages replying to each other get different roots. */
  lemma CycleSplits(parents: Parents, a: string, b: string)
    requires a != b && a in parents && b in parents && parents[a] == b && parents[b] == a
    ensures RootOf(parents, a) == b && RootOf(parents, b) == a
  {
    AncestorsAre(parents, [a, b]);
    AncestorsAre(parents, [b, a]);
  }
}
