/** Grouping an inbox into conversations. Message ids are a parameter: `id` stands for `message_id`. */
module Grouping {
  import opened Encoding
  import opened Envelopes
  import opened Ordering
  import opened Threads

  type Ids = EnvelopeBody -> string

  datatype Conversation = Conversation(root: string, messages: seq<Envelope>)

  /** Among these envelopes an id identifies a body, as an injective hash of the signed bytes does. */
  ghost predicate IdsIdentify(id: Ids, es: seq<Envelope>) {
    forall d, e :: d in es && e in es && id(d.body) == id(e.body) ==> d.body == e.body
  }

  ghost predicate DistinctIds(id: Ids, es: seq<Envelope>) {
    forall i, j :: 0 <= i < j < |es| ==> id(es[i].body) != id(es[j].body)
  }

  ghost function IdSet(id: Ids, es: seq<Envelope>): set<string> {
    set e | e in es :: id(e.body)
  }

  ghost function BodySet(es: seq<Envelope>): set<EnvelopeBody> {
    set e | e in es :: e.body
  }

  // ---- what a grouping is ----

  /** `m` records the reply pointers of `es` and nothing else. */
  ghost predicate IsParentMap(id: Ids, es: seq<Envelope>, m: Parents) {
    && (forall e :: e in es && e.body.inReplyTo != "" ==> id(e.body) in m && m[id(e.body)] == e.body.inReplyTo)
    && (forall k :: k in m ==> exists e :: e in es && id(e.body) == k && e.body.inReplyTo != "")
  }

  function MessageKey(id: Ids): Envelope -> Key {
    (e: Envelope) => Key(e.body.sentAt, id(e.body))
  }

  /** The latest `sent_at`, 0 when there is none. */
  function LastActivity(ms: seq<Envelope>): (t: u64)
    ensures forall e :: e in ms ==> e.body.sentAt <= t
    ensures ms != [] ==> exists e :: e in ms && e.body.sentAt == t
  {
    if ms == [] then 0 else
      var rest := LastActivity(ms[1..]);
      if rest <= ms[0].body.sentAt then
        assert ms[0] in ms;
        ms[0].body.sentAt
      else rest
  }

  /** Newest first. */
  function ConversationKey(): Conversation -> Key {
    (c: Conversation) => var latest: int := LastActivity(c.messages); Key(-latest, c.root)
  }

  /** The envelopes of `es` whose walk along reply pointers ends at `c.root`, oldest first. */
  ghost predicate IsConversation(id: Ids, es: seq<Envelope>, m: Parents, c: Conversation) {
    && c.messages != []
    && Ascending(c.messages, MessageKey(id))
    && (forall e :: e in c.messages <==> e in es && RootOf(m, id(e.body)) == c.root)
  }

  ghost predicate IsGrouping(id: Ids, es: seq<Envelope>, m: Parents, convs: seq<Conversation>) {
    && (forall i :: 0 <= i < |convs| ==> IsConversation(id, es, m, convs[i]))
    && (forall i, j :: 0 <= i < j < |convs| ==> convs[i].root != convs[j].root)
    && Ascending(convs, ConversationKey())
    && (forall e :: e in es ==> exists i :: 0 <= i < |convs| && e in convs[i].messages)
  }

  // ---- the algorithm ----

  /** The first envelope with id `k`. */
  ghost function First(id: Ids, es: seq<Envelope>, k: string): Option<Envelope> {
    if es == [] then None
    else if First(id, es[..|es| - 1], k).Some? then First(id, es[..|es| - 1], k)
    else if id(es[|es| - 1].body) == k then Some(es[|es| - 1])
    else None
  }

  /** Each envelope is the first of `es` with its id, and each id of `es` is there, once. */
  ghost predicate IsDeduped(id: Ids, es: seq<Envelope>, deduped: seq<Envelope>) {
    && DistinctIds(id, deduped)
    && IdSet(id, deduped) == IdSet(id, es)
    && forall e :: e in deduped ==> First(id, es, id(e.body)) == Some(e)
  }

  method Dedup(id: Ids, envelopes: seq<Envelope>) returns (deduped: seq<Envelope>)
    ensures IsDeduped(id, envelopes, deduped)
  {
    deduped := [];
    var seen := {};
    for i := 0 to |envelopes|
      invariant seen == IdSet(id, deduped) && IsDeduped(id, envelopes[..i], deduped)
    {
      var e := envelopes[i];
      var mid := id(e.body);
      assert envelopes[..i + 1] == envelopes[..i] + [e];
      IdSetSnoc(id, deduped, e);
      DedupedSnoc(id, envelopes[..i], deduped, e);
      if mid !in seen {
        seen := seen + {mid};
        deduped := deduped + [e];
      }
    }
    assert envelopes[..|envelopes|] == envelopes;
  }

  lemma DedupedSnoc(id: Ids, es: seq<Envelope>, deduped: seq<Envelope>, e: Envelope)
    requires IsDeduped(id, es, deduped)
    ensures IsDeduped(id, es + [e], if id(e.body) in IdSet(id, deduped) then deduped else deduped + [e])
  {
    hide First;
    IdSetSnoc(id, es, e);
    IdSetSnoc(id, deduped, e);
    forall d | d in deduped
      ensures id(d.body) in IdSet(id, deduped) && First(id, es + [e], id(d.body)) == Some(d)
    {
      FirstSnoc(id, es, e, id(d.body));
    }
    FirstSnoc(id, es, e, id(e.body));
    FirstIsThere(id, es, id(e.body));
  }

  lemma FirstSnoc(id: Ids, es: seq<Envelope>, e: Envelope, k: string)
    ensures First(id, es + [e], k) ==
            if First(id, es, k).Some? then First(id, es, k) else if id(e.body) == k then Some(e) else None
  {
    assert (es + [e])[..|es + [e]| - 1] == es;
  }

  lemma {:induction false} FirstIsThere(id: Ids, es: seq<Envelope>, k: string)
    ensures First(id, es, k).Some? <==> k in IdSet(id, es)
    ensures First(id, es, k).Some? ==> First(id, es, k).value in es && id(First(id, es, k).value.body) == k
  {
    if es != [] {
      var before, e := es[..|es| - 1], es[|es| - 1];
      assert es == before + [e];
      FirstIsThere(id, before, k);
      IdSetSnoc(id, before, e);
    }
  }

  lemma IdSetSnoc(id: Ids, es: seq<Envelope>, e: Envelope)
    ensures IdSet(id, es + [e]) == IdSet(id, es) + {id(e.body)}
  {
    forall k | k in IdSet(id, es) + {id(e.body)}
      ensures k in IdSet(id, es + [e])
    {
      if k == id(e.body) {
        assert e in es + [e];
      } else {
        var d :| d in es && id(d.body) == k;
        assert d in es + [e];
      }
    }
  }

  method ParentMap(id: Ids, es: seq<Envelope>) returns (m: Parents)
    requires DistinctIds(id, es)
    ensures IsParentMap(id, es, m)
  {
    m := map[];
    for i := 0 to |es|
      invariant IsParentMap(id, es[..i], m)
    {
      var e := es[i];
      var shorter := es[..i];
      assert es[..i + 1] == shorter + [e];
      assert forall d :: d in shorter ==> id(d.body) != id(e.body);
      ghost var m0 := m;
      if e.body.inReplyTo != "" {
        m := m[id(e.body) := e.body.inReplyTo];
      }
      ParentMapSnoc(id, shorter, e, m0, m);
    }
    assert es[..|es|] == es;
  }

  lemma ParentMapSnoc(id: Ids, es: seq<Envelope>, e: Envelope, m: Parents, m': Parents)
    requires IsParentMap(id, es, m) && forall d :: d in es ==> id(d.body) != id(e.body)
    requires m' == if e.body.inReplyTo != "" then m[id(e.body) := e.body.inReplyTo] else m
    ensures IsParentMap(id, es + [e], m')
  {
    forall k | k in m'
      ensures exists d :: d in es + [e] && id(d.body) == k && d.body.inReplyTo != ""
    {
      if k in m {
        var d :| d in es && id(d.body) == k && d.body.inReplyTo != "";
        assert d in es + [e];
      } else {
        assert e in es + [e];
      }
    }
  }

  /** `by_root` files each envelope of `es` under its root. */
  ghost predicate Filed(id: Ids, es: seq<Envelope>, m: Parents, byRoot: map<string, seq<Envelope>>) {
    && (forall r :: r in byRoot ==> byRoot[r] != [] && DistinctIds(id, byRoot[r]))
    && (forall r, e :: r in byRoot && e in byRoot[r] ==> e in es && RootOf(m, id(e.body)) == r)
    && (forall e :: e in es ==> RootOf(m, id(e.body)) in byRoot && e in byRoot[RootOf(m, id(e.body))])
  }

  method FileByRoot(id: Ids, es: seq<Envelope>, m: Parents) returns (byRoot: map<string, seq<Envelope>>)
    requires DistinctIds(id, es)
    ensures Filed(id, es, m, byRoot)
  {
    byRoot := map[];
    for i := 0 to |es|
      invariant Filed(id, es[..i], m, byRoot)
    {
      var e := es[i];
      var root := ResolveRoot(id(e.body), m);
      var shorter := es[..i];
      assert es[..i + 1] == shorter + [e];
      assert forall d :: d in shorter ==> id(d.body) != id(e.body);
      var before := if root in byRoot then byRoot[root] else [];
      FiledSnoc(id, shorter, e, m, byRoot, root, before);
      byRoot := byRoot[root := before + [e]];
    }
    assert es[..|es|] == es;
  }

  lemma FiledSnoc(id: Ids, es: seq<Envelope>, e: Envelope, m: Parents, byRoot: map<string, seq<Envelope>>,
                  root: string, before: seq<Envelope>)
    requires Filed(id, es, m, byRoot) && root == RootOf(m, id(e.body))
    requires before == if root in byRoot then byRoot[root] else []
    requires forall d :: d in es ==> id(d.body) != id(e.body)
    ensures Filed(id, es + [e], m, byRoot[root := before + [e]])
  {
    assert forall d :: d in before ==> d in es;
    var after := byRoot[root := before + [e]];
    assert DistinctIds(id, after[root]) by {
      assert DistinctIds(id, before);
    }
    forall d | d in es + [e]
      ensures RootOf(m, id(d.body)) in after && d in after[RootOf(m, id(d.body))]
    {
      if d != e {
        assert d in es;
      }
    }
  }

  /** What `GroupThreads` makes of its input: a grouping of its envelopes without repetitions. */
  ghost predicate Grouped(id: Ids, envelopes: seq<Envelope>, convs: seq<Conversation>, deduped: seq<Envelope>,
                          m: Parents)
  {
    IsDeduped(id, envelopes, deduped) && IsParentMap(id, deduped, m) && IsGrouping(id, deduped, m, convs)
  }

  ghost predicate Groups(id: Ids, envelopes: seq<Envelope>, convs: seq<Conversation>) {
    exists deduped, m :: Grouped(id, envelopes, convs, deduped, m)
  }

  /** Deduplicate, resolve roots, file, sort each conversation, sort the conversations. The loop over the
      hash map takes its entries in an arbitrary order. */
  method GroupThreads(id: Ids, envelopes: seq<Envelope>) returns (convs: seq<Conversation>)
    ensures Groups(id, envelopes, convs)
  {
    hide IsDeduped, First;
    var es := Dedup(id, envelopes);
    DedupedDistinct(id, envelopes, es);
    var m := ParentMap(id, es);
    var byRoot := FileByRoot(id, es, m);
    convs := [];
    var todo := byRoot.Keys;
    while todo != {}
      invariant todo <= byRoot.Keys && Collected(id, es, m, convs, todo)
      decreases todo
    {
      var root :| root in todo;
      var c := Conversation(root, SortByKey(byRoot[root], MessageKey(id)));
      SortedConversation(id, es, m, byRoot, c);
      CollectedSnoc(id, es, m, convs, todo, c);
      convs := convs + [c];
      todo := todo - {root};
    }
    convs := SortConversations(id, es, m, convs);
    assert Grouped(id, envelopes, convs, es, m);
  }

  lemma DedupedDistinct(id: Ids, es: seq<Envelope>, deduped: seq<Envelope>)
    requires IsDeduped(id, es, deduped)
    ensures DistinctIds(id, deduped) && IdSet(id, deduped) == IdSet(id, es)
  {
  }

  /** The conversations built so far, with the roots in `todo` still to come. */
  ghost predicate Collected(id: Ids, es: seq<Envelope>, m: Parents, convs: seq<Conversation>, todo: set<string>) {
    && (forall c :: c in convs ==> IsConversation(id, es, m, c) && c.root !in todo)
    && (forall i, j :: 0 <= i < j < |convs| ==> convs[i].root != convs[j].root)
    && (forall e :: e in es ==> RootOf(m, id(e.body)) in todo || exists c :: c in convs && e in c.messages)
  }

  lemma CollectedSnoc(id: Ids, es: seq<Envelope>, m: Parents, convs: seq<Conversation>, todo: set<string>,
                      c: Conversation)
    requires Collected(id, es, m, convs, todo) && c.root in todo && IsConversation(id, es, m, c)
    ensures Collected(id, es, m, convs + [c], todo - {c.root})
  {
    hide IsConversation, RootOf;
    forall e | e in es
      ensures RootOf(m, id(e.body)) in todo - {c.root} || exists d :: d in convs + [c] && e in d.messages
    {
      if RootOf(m, id(e.body)) == c.root {
        InConversation(id, es, m, c, e);
        assert c in convs + [c];
      } else if RootOf(m, id(e.body)) !in todo {
        var d :| d in convs && e in d.messages;
        assert d in convs + [c];
      }
    }
  }

  lemma InConversation(id: Ids, es: seq<Envelope>, m: Parents, c: Conversation, e: Envelope)
    requires IsConversation(id, es, m, c)
    ensures e in c.messages <==> e in es && RootOf(m, id(e.body)) == c.root
  {
  }

  lemma SortedConversation(id: Ids, es: seq<Envelope>, m: Parents, byRoot: map<string, seq<Envelope>>, c: Conversation)
    requires Filed(id, es, m, byRoot) && c.root in byRoot
    requires c.messages == SortByKey(byRoot[c.root], MessageKey(id))
    ensures IsConversation(id, es, m, c)
    ensures forall e :: e in es && RootOf(m, id(e.body)) == c.root ==> e in c.messages
  {
    var ms := byRoot[c.root];
    SameMultiset(c.messages, ms);
    assert KeysDiffer(ms, MessageKey(id)) by {
      assert DistinctIds(id, ms);
    }
    SortAscending(ms, MessageKey(id));
  }

  method SortConversations(id: Ids, es: seq<Envelope>, m: Parents, unsorted: seq<Conversation>)
    returns (convs: seq<Conversation>)
    requires Collected(id, es, m, unsorted, {})
    ensures IsGrouping(id, es, m, convs)
  {
    convs := SortByKey(unsorted, ConversationKey());
    SortedIsGrouping(id, es, m, unsorted, convs);
  }

  lemma SortedIsGrouping(id: Ids, es: seq<Envelope>, m: Parents, unsorted: seq<Conversation>, convs: seq<Conversation>)
    requires Collected(id, es, m, unsorted, {}) && convs == SortByKey(unsorted, ConversationKey())
    ensures IsGrouping(id, es, m, convs)
  {
    hide RootOf, IsConversation, LastActivity, KeyLess, ConversationKey, SortByKey, Ascending;
    SameMultiset(convs, unsorted);
    RootsTellApart(unsorted);
    SortAscending(unsorted, ConversationKey());
    assert forall i :: 0 <= i < |convs| ==> convs[i] in unsorted;
    DistinctRoots(unsorted, convs);
    forall e | e in es
      ensures exists i :: 0 <= i < |convs| && e in convs[i].messages
    {
      var c :| c in unsorted && e in c.messages;
      assert c in convs;
    }
  }

  lemma RootsTellApart(convs: seq<Conversation>)
    requires forall i, j :: 0 <= i < j < |convs| ==> convs[i].root != convs[j].root
    ensures KeysDiffer(convs, ConversationKey())
  {
    hide LastActivity;
  }

  lemma DistinctRoots(unsorted: seq<Conversation>, convs: seq<Conversation>)
    requires Ascending(convs, ConversationKey())
    requires forall i :: 0 <= i < |convs| ==> convs[i] in unsorted
    requires forall i, j :: 0 <= i < j < |unsorted| ==> unsorted[i].root != unsorted[j].root
    ensures forall i, j :: 0 <= i < j < |convs| ==> convs[i].root != convs[j].root
  {
    forall i, j | 0 <= i < j < |convs|
      ensures convs[i].root != convs[j].root
    {
      var a :| 0 <= a < |unsorted| && unsorted[a] == convs[i];
      var b :| 0 <= b < |unsorted| && unsorted[b] == convs[j];
      KeyIrreflexive(ConversationKey()(convs[i]));
    }
  }

  // ---- what the result means ----

  /** The message at place (i, j) has id `k`. */
  ghost predicate Holds(id: Ids, convs: seq<Conversation>, i: nat, j: nat, k: string) {
    i < |convs| && j < |convs[i].messages| && id(convs[i].messages[j].body) == k
  }

  /** A partition: every id of the input occurs in the result, in exactly one place, and no other does;
      what stands there is the first envelope that came with that id. */
  lemma EachMessageOnce(id: Ids, envelopes: seq<Envelope>, convs: seq<Conversation>, k: string)
    requires Groups(id, envelopes, convs)
    ensures k in IdSet(id, envelopes) <==> exists i: nat, j: nat :: Holds(id, convs, i, j, k)
    ensures forall i: nat, j: nat, a: nat, b: nat ::
              Holds(id, convs, i, j, k) && Holds(id, convs, a, b, k) ==> i == a && j == b
    ensures forall i: nat, j: nat :: Holds(id, convs, i, j, k) ==> First(id, envelopes, k) == Some(convs[i].messages[j])
  {
    hide IsConversation, RootOf, Ascending, DistinctIds, IsGrouping, First;
    var es: seq<Envelope>, m: Parents :| Grouped(id, envelopes, convs, es, m);
    DedupedDistinct(id, envelopes, es);
    if k in IdSet(id, es) {
      var e :| e in es && id(e.body) == k;
      var a, b := PlaceOf(id, es, m, convs, e);
      assert Holds(id, convs, a, b, k);
    }
    forall i: nat, j: nat | Holds(id, convs, i, j, k)
      ensures k in IdSet(id, es) && First(id, envelopes, k) == Some(convs[i].messages[j])
    {
      PlaceIsInput(id, es, m, convs, i, j);
    }
    forall i: nat, j: nat, a: nat, b: nat | Holds(id, convs, i, j, k) && Holds(id, convs, a, b, k)
      ensures i == a && j == b
    {
      SamePlace(id, es, m, convs, i, j, a, b);
    }
  }

  lemma PlaceOf(id: Ids, es: seq<Envelope>, m: Parents, convs: seq<Conversation>, e: Envelope) returns (i: nat, j: nat)
    requires IsGrouping(id, es, m, convs) && e in es
    ensures i < |convs| && j < |convs[i].messages| && convs[i].messages[j] == e
  {
    hide IsConversation, Ascending, RootOf;
    i :| i < |convs| && e in convs[i].messages;
    j :| j < |convs[i].messages| && convs[i].messages[j] == e;
  }

  lemma PlaceIsInput(id: Ids, es: seq<Envelope>, m: Parents, convs: seq<Conversation>, i: nat, j: nat)
    requires IsGrouping(id, es, m, convs) && i < |convs| && j < |convs[i].messages|
    ensures convs[i].messages[j] in es && RootOf(m, id(convs[i].messages[j].body)) == convs[i].root
  {
    hide RootOf, Ascending;
    assert IsConversation(id, es, m, convs[i]);
    InConversation(id, es, m, convs[i], convs[i].messages[j]);
  }

  lemma SameIdSame(id: Ids, es: seq<Envelope>, d: Envelope, e: Envelope)
    requires DistinctIds(id, es) && d in es && e in es && id(d.body) == id(e.body)
    ensures d == e
  {
    var i :| 0 <= i < |es| && es[i] == d;
    var j :| 0 <= j < |es| && es[j] == e;
  }

  lemma SamePlace(id: Ids, es: seq<Envelope>, m: Parents, convs: seq<Conversation>, i: nat, j: nat, a: nat, b: nat)
    requires IsGrouping(id, es, m, convs) && DistinctIds(id, es)
    requires i < |convs| && j < |convs[i].messages| && a < |convs| && b < |convs[a].messages|
    requires id(convs[i].messages[j].body) == id(convs[a].messages[b].body)
    ensures i == a && j == b
  {
    hide RootOf, KeyLess;
    PlaceIsInput(id, es, m, convs, i, j);
    PlaceIsInput(id, es, m, convs, a, b);
    assert i == a;
    SameIdSame(id, es, convs[i].messages[j], convs[a].messages[b]);
    KeyIrreflexive(MessageKey(id)(convs[i].messages[j]));
    assert IsConversation(id, es, m, convs[i]);
    assert Ascending(convs[i].messages, MessageKey(id));
  }

  lemma RootAt(id: Ids, es: seq<Envelope>, m: Parents, convs: seq<Conversation>, i: nat, j: nat)
    requires IsParentMap(id, es, m) && IsGrouping(id, es, m, convs)
    requires i < |convs| && j < |convs[i].messages| && convs[i].messages[j].body.inReplyTo != ""
    ensures var e := convs[i].messages[j];
      id(e.body) in m && m[id(e.body)] == e.body.inReplyTo && RootOf(m, id(e.body)) == convs[i].root
  {
    hide IsGrouping, RootOf;
    PlaceIsInput(id, es, m, convs, i, j);
  }

  /** A message and one it answers are in one conversation, exactly unless the answer lies on a cycle of
      two or more messages. */
  lemma RepliesTogether(id: Ids, es: seq<Envelope>, m: Parents, convs: seq<Conversation>, i: nat, j: nat, a: nat,
                        b: nat)
    requires IsParentMap(id, es, m) && IsGrouping(id, es, m, convs)
    requires i < |convs| && j < |convs[i].messages| && a < |convs| && b < |convs[a].messages|
    requires var e, f := convs[i].messages[j].body, convs[a].messages[b].body;
      e.inReplyTo != "" && e.inReplyTo == id(f)
    ensures var e, f := id(convs[i].messages[j].body), id(convs[a].messages[b].body);
      i == a <==> e == f || e !in Ancestors(m, f)
  {
    hide IsParentMap, IsConversation, Ascending, Ancestors, RootOf;
    RootAt(id, es, m, convs, i, j);
    PlaceIsInput(id, es, m, convs, a, b);
    ReplySharesRoot(m, id(convs[i].messages[j].body));
  }

  /** So are two answers to one message, off such cycles, even if nobody has seen that message. */
  lemma SiblingsTogether(id: Ids, es: seq<Envelope>, m: Parents, convs: seq<Conversation>, i: nat, j: nat, a: nat,
                         b: nat)
    requires IsParentMap(id, es, m) && IsGrouping(id, es, m, convs)
    requires i < |convs| && j < |convs[i].messages| && a < |convs| && b < |convs[a].messages|
    requires var e, f := convs[i].messages[j].body, convs[a].messages[b].body;
      && e.inReplyTo != "" && e.inReplyTo == f.inReplyTo
      && id(e) !in Ancestors(m, e.inReplyTo) && id(f) !in Ancestors(m, e.inReplyTo)
    ensures i == a
  {
    hide IsParentMap, IsConversation, Ascending, Ancestors, RootOf;
    RootAt(id, es, m, convs, i, j);
    RootAt(id, es, m, convs, a, b);
    ReplySharesRoot(m, id(convs[i].messages[j].body));
    ReplySharesRoot(m, id(convs[a].messages[b].body));
  }

  /** A conversation's activity is the time of its last message. */
  lemma LastActivityIsLast(id: Ids, es: seq<Envelope>, m: Parents, c: Conversation)
    requires IsConversation(id, es, m, c)
    ensures LastActivity(c.messages) == c.messages[|c.messages| - 1].body.sentAt
  {
    hide RootOf, NameLess, LastActivity;
    var n := |c.messages| - 1;
    assert c.messages[n] in c.messages;
    var e :| e in c.messages && e.body.sentAt == LastActivity(c.messages);
    var i :| 0 <= i <= n && c.messages[i] == e;
    if i < n {
      assert KeyLess(MessageKey(id)(c.messages[i]), MessageKey(id)(c.messages[n]));
    }
  }

  /** Conversations come newest first: by the time of their last message, and where two agree in that, by
      the bytes of their roots. */
  lemma NewestFirst(id: Ids, envelopes: seq<Envelope>, convs: seq<Conversation>, i: nat, j: nat)
    requires Groups(id, envelopes, convs) && i < j < |convs|
    ensures convs[i].messages != [] && convs[j].messages != []
    ensures var ms, ns := convs[i].messages, convs[j].messages;
      var t, u, x, y := ms[|ms| - 1].body.sentAt, ns[|ns| - 1].body.sentAt, Utf8(convs[i].root), Utf8(convs[j].root);
      t > u || (t == u && exists n :: 0 <= n <= |x| && n < |y| && x[..n] == y[..n] && (n == |x| || x[n] < y[n]))
  {
    hide IsConversation, LastActivity, Utf8, IsDeduped, IsParentMap, KeyLess, ConversationKey;
    var es: seq<Envelope>, m: Parents :| Grouped(id, envelopes, convs, es, m);
    LastTime(id, es, m, convs[i]);
    LastTime(id, es, m, convs[j]);
    assert KeyLess(ConversationKey()(convs[i]), ConversationKey()(convs[j]));
    var n := LaterOrSmallerRoot(convs[i], convs[j]);
  }

  lemma LastTime(id: Ids, es: seq<Envelope>, m: Parents, c: Conversation)
    requires IsConversation(id, es, m, c)
    ensures c.messages != [] && LastActivity(c.messages) == c.messages[|c.messages| - 1].body.sentAt
  {
    hide RootOf, Ascending, LastActivity;
    LastActivityIsLast(id, es, m, c);
  }

  lemma LaterOrSmallerRoot(c: Conversation, d: Conversation) returns (n: nat)
    requires KeyLess(ConversationKey()(c), ConversationKey()(d))
    ensures LastActivity(c.messages) >= LastActivity(d.messages)
    ensures LastActivity(c.messages) == LastActivity(d.messages) ==>
              var x, y := Utf8(c.root), Utf8(d.root);
              n <= |x| && n < |y| && x[..n] == y[..n] && (n == |x| || x[n] < y[n])
  {
    hide LastActivity, Utf8, NameLess;
    n := 0;
    if LastActivity(c.messages) == LastActivity(d.messages) {
      n := WhereNamesDiffer(c.root, d.root);
    }
  }

  /** Messages of a conversation come oldest first: by time, and where two agree in that, by the bytes of
      their ids. */
  lemma OldestFirst(id: Ids, envelopes: seq<Envelope>, convs: seq<Conversation>, c: nat, i: nat, j: nat)
    requires Groups(id, envelopes, convs) && c < |convs| && i < j < |convs[c].messages|
    ensures var d, e := convs[c].messages[i].body, convs[c].messages[j].body;
      var x, y := Utf8(id(d)), Utf8(id(e));
      || d.sentAt < e.sentAt
      || (d.sentAt == e.sentAt && exists n :: 0 <= n <= |x| && n < |y| && x[..n] == y[..n] && (n == |x| || x[n] < y[n]))
  {
    hide RootOf, NameLess, LastActivity, Utf8, IsDeduped, IsParentMap;
    var es: seq<Envelope>, m: Parents :| Grouped(id, envelopes, convs, es, m);
    assert IsConversation(id, es, m, convs[c]);
    var d, e := convs[c].messages[i], convs[c].messages[j];
    assert KeyLess(MessageKey(id)(d), MessageKey(id)(e));
    if d.body.sentAt == e.body.sentAt {
      var n := WhereNamesDiffer(id(d.body), id(e.body));
    }
  }

  /** What is kept of several envelopes with one id is the one that came first. */
  lemma FirstComeFirstKept(id: Ids, envelopes: seq<Envelope>, convs: seq<Conversation>, i: nat, j: nat)
    requires Groups(id, envelopes, convs) && i < |convs| && j < |convs[i].messages|
    ensures exists a :: 0 <= a < |envelopes| && envelopes[a] == convs[i].messages[j]
                        && forall b :: 0 <= b < a ==> id(envelopes[b].body) != id(envelopes[a].body)
  {
    hide Groups, First;
    var e := convs[i].messages[j];
    EachMessageOnce(id, envelopes, convs, id(e.body));
    assert Holds(id, convs, i, j, id(e.body));
    var a := FirstIsEarliest(id, envelopes, id(e.body));
  }

  lemma {:induction false} FirstIsEarliest(id: Ids, es: seq<Envelope>, k: string) returns (a: nat)
    requires First(id, es, k).Some?
    ensures a < |es| && First(id, es, k) == Some(es[a]) && id(es[a].body) == k
    ensures forall b :: 0 <= b < a ==> id(es[b].body) != k
  {
    var before := es[..|es| - 1];
    if First(id, before, k).Some? {
      a := FirstIsEarliest(id, before, k);
    } else {
      a := |es| - 1;
      forall b | 0 <= b < a
        ensures id(es[b].body) != k
      {
        FirstIsThere(id, before, k);
        assert before[b] in before;
      }
    }
  }

  // ---- the result depends only on the set of messages ----

  ghost function BodiesOf(ms: seq<Envelope>): (bs: seq<EnvelopeBody>)
    ensures |bs| == |ms| && forall i :: 0 <= i < |ms| ==> bs[i] == ms[i].body
  {
    seq(|ms|, i requires 0 <= i < |ms| => ms[i].body)
  }

  /** What a conversation says, whoever relayed it: two copies of a message may differ in signature. */
  datatype View = View(root: string, bodies: seq<EnvelopeBody>)

  ghost function ViewOf(c: Conversation): View {
    View(c.root, BodiesOf(c.messages))
  }

  ghost function Views(convs: seq<Conversation>): (vs: seq<View>)
    ensures |vs| == |convs| && forall i :: 0 <= i < |convs| ==> vs[i] == ViewOf(convs[i])
  {
    seq(|convs|, i requires 0 <= i < |convs| => ViewOf(convs[i]))
  }

  ghost function BodyKey(id: Ids): EnvelopeBody -> Key {
    (b: EnvelopeBody) => Key(b.sentAt, id(b))
  }

  ghost function ViewKey(): View -> Key {
    (v: View) => var latest: int := if v.bodies == [] then 0 else v.bodies[|v.bodies| - 1].sentAt; Key(-latest, v.root)
  }

  lemma BodyIn(es: seq<Envelope>, fs: seq<Envelope>, e: Envelope) returns (f: Envelope)
    requires BodySet(es) == BodySet(fs) && e in es
    ensures f in fs && f.body == e.body
  {
    assert e.body in BodySet(es);
    f :| f in fs && f.body == e.body;
  }

  /** Without repetitions of an id, only the set of bodies matters for the reply pointers. */
  lemma ParentMapUnique(id: Ids, es: seq<Envelope>, m: Parents, fs: seq<Envelope>, n: Parents)
    requires IsParentMap(id, es, m) && IsParentMap(id, fs, n) && BodySet(es) == BodySet(fs)
    ensures m == n
  {
    forall k | k in m
      ensures k in n && n[k] == m[k]
    {
      ParentIn(id, es, m, fs, n, k);
    }
    forall k | k in n
      ensures k in m
    {
      ParentIn(id, fs, n, es, m, k);
    }
  }

  lemma ParentIn(id: Ids, es: seq<Envelope>, m: Parents, fs: seq<Envelope>, n: Parents, k: string)
    requires IsParentMap(id, es, m) && IsParentMap(id, fs, n) && BodySet(es) == BodySet(fs) && k in m
    ensures k in n && n[k] == m[k]
  {
    var e :| e in es && id(e.body) == k && e.body.inReplyTo != "";
    var f := BodyIn(es, fs, e);
  }

  /** Two conversations with one root, drawn from the same messages, say the same. */
  lemma SameRootSameView(id: Ids, es: seq<Envelope>, fs: seq<Envelope>, m: Parents, c: Conversation, d: Conversation)
    requires BodySet(es) == BodySet(fs) && c.root == d.root
    requires IsConversation(id, es, m, c) && IsConversation(id, fs, m, d)
    ensures ViewOf(c) == ViewOf(d)
  {
    BodiesAscend(id, c.messages);
    BodiesAscend(id, d.messages);
    BodiesWithin(id, es, fs, m, c, d);
    BodiesWithin(id, fs, es, m, d, c);
    AscendingUnique(BodiesOf(c.messages), BodiesOf(d.messages), BodyKey(id));
  }

  lemma BodiesAscend(id: Ids, ms: seq<Envelope>)
    requires Ascending(ms, MessageKey(id))
    ensures Ascending(BodiesOf(ms), BodyKey(id))
  {
    hide KeyLess;
    forall i, j | 0 <= i < j < |ms|
      ensures KeyLess(BodyKey(id)(BodiesOf(ms)[i]), BodyKey(id)(BodiesOf(ms)[j]))
    {
      assert KeyLess(MessageKey(id)(ms[i]), MessageKey(id)(ms[j]));
    }
  }

  lemma BodiesWithin(id: Ids, es: seq<Envelope>, fs: seq<Envelope>, m: Parents, c: Conversation, d: Conversation)
    requires BodySet(es) == BodySet(fs) && c.root == d.root
    requires IsConversation(id, es, m, c) && IsConversation(id, fs, m, d)
    ensures forall b :: b in BodiesOf(c.messages) ==> b in BodiesOf(d.messages)
  {
    hide RootOf, Ascending;
    forall b | b in BodiesOf(c.messages)
      ensures b in BodiesOf(d.messages)
    {
      var i :| 0 <= i < |c.messages| && c.messages[i].body == b;
      InConversation(id, es, m, c, c.messages[i]);
      var f := BodyIn(es, fs, c.messages[i]);
      InConversation(id, fs, m, d, f);
      var j :| 0 <= j < |d.messages| && d.messages[j] == f;
      assert BodiesOf(d.messages)[j] == b;
    }
  }

  lemma ViewsWithin(id: Ids, m: Parents, es: seq<Envelope>, convs: seq<Conversation>,
                    fs: seq<Envelope>, others: seq<Conversation>)
    requires BodySet(es) == BodySet(fs) && IsGrouping(id, es, m, convs) && IsGrouping(id, fs, m, others)
    ensures forall v :: v in Views(convs) ==> v in Views(others)
  {
    hide RootOf, Ascending;
    forall v | v in Views(convs)
      ensures v in Views(others)
    {
      var i :| 0 <= i < |convs| && ViewOf(convs[i]) == v;
      var c := convs[i];
      assert IsConversation(id, es, m, c);
      assert c.messages[0] in c.messages;
      InConversation(id, es, m, c, c.messages[0]);
      var f := BodyIn(es, fs, c.messages[0]);
      var j :| 0 <= j < |others| && f in others[j].messages;
      assert IsConversation(id, fs, m, others[j]);
      InConversation(id, fs, m, others[j], f);
      SameRootSameView(id, es, fs, m, c, others[j]);
      assert Views(others)[j] == v;
    }
  }

  lemma SameKey(id: Ids, es: seq<Envelope>, m: Parents, c: Conversation)
    requires IsConversation(id, es, m, c)
    ensures ViewKey()(ViewOf(c)) == ConversationKey()(c)
  {
    hide RootOf, Ascending, LastActivity;
    LastActivityIsLast(id, es, m, c);
  }

  lemma ViewsAscend(id: Ids, es: seq<Envelope>, m: Parents, convs: seq<Conversation>)
    requires IsGrouping(id, es, m, convs)
    ensures Ascending(Views(convs), ViewKey())
  {
    hide KeyLess, ViewKey, ConversationKey, ViewOf, IsConversation;
    forall i, j | 0 <= i < j < |convs|
      ensures KeyLess(ViewKey()(Views(convs)[i]), ViewKey()(Views(convs)[j]))
    {
      SameKey(id, es, m, convs[i]);
      SameKey(id, es, m, convs[j]);
      assert KeyLess(ConversationKey()(convs[i]), ConversationKey()(convs[j]));
    }
  }

  lemma DedupBodies(id: Ids, es: seq<Envelope>, deduped: seq<Envelope>)
    requires IdsIdentify(id, es) && IsDeduped(id, es, deduped)
    ensures BodySet(deduped) == BodySet(es)
  {
    hide First;
    forall d | d in deduped
      ensures d in es
    {
      FirstIsThere(id, es, id(d.body));
    }
    forall b | b in BodySet(es)
      ensures b in BodySet(deduped)
    {
      var e :| e in es && e.body == b;
      assert id(e.body) in IdSet(id, deduped);
      var d :| d in deduped && id(d.body) == id(e.body);
      assert d.body in BodySet(deduped);
    }
  }

  lemma SameBodiesSameViews(id: Ids, es: seq<Envelope>, m: Parents, convs: seq<Conversation>,
                            fs: seq<Envelope>, n: Parents, others: seq<Conversation>)
    requires IsParentMap(id, es, m) && IsGrouping(id, es, m, convs)
    requires IsParentMap(id, fs, n) && IsGrouping(id, fs, n, others)
    requires BodySet(es) == BodySet(fs)
    ensures Views(convs) == Views(others)
  {
    hide IsGrouping, IsParentMap;
    ParentMapUnique(id, es, m, fs, n);
    ViewsWithin(id, m, es, convs, fs, others);
    ViewsWithin(id, m, fs, others, es, convs);
    ViewsAscend(id, es, m, convs);
    ViewsAscend(id, fs, m, others);
    AscendingUnique(Views(convs), Views(others), ViewKey());
  }

  /** Reordering or repeating the input leaves the result the same: the same conversations in the same
      order, with the same messages in the same order. */
  lemma OrderIrrelevant(id: Ids, es: seq<Envelope>, convs: seq<Conversation>, fs: seq<Envelope>,
                        others: seq<Conversation>)
    requires IdsIdentify(id, es) && IdsIdentify(id, fs) && BodySet(es) == BodySet(fs)
    requires Groups(id, es, convs) && Groups(id, fs, others)
    ensures Views(convs) == Views(others)
  {
    hide IsGrouping, IsParentMap, IdsIdentify, IsDeduped;
    var d: seq<Envelope>, m: Parents :| Grouped(id, es, convs, d, m);
    var d': seq<Envelope>, n: Parents :| Grouped(id, fs, others, d', n);
    DedupBodies(id, es, d);
    DedupBodies(id, fs, d');
    SameBodiesSameViews(id, d, m, convs, d', n, others);
  }

  lemma DedupedWithin(id: Ids, es: seq<Envelope>, d: seq<Envelope>, d': seq<Envelope>)
    requires IsDeduped(id, es, d) && IsDeduped(id, es, d')
    ensures forall e :: e in d ==> e in d'
  {
    hide First, DistinctIds;
    forall e | e in d
      ensures e in d'
    {
      assert id(e.body) in IdSet(id, d');
      var f :| f in d' && id(f.body) == id(e.body);
      assert Some(f) == First(id, es, id(e.body)) == Some(e);
    }
  }

  /** The result is a function of the input: the order in which the hash map hands out its entries shows
      nowhere, for any ids at all. */
  lemma HashOrderIrrelevant(id: Ids, es: seq<Envelope>, convs: seq<Conversation>, others: seq<Conversation>)
    requires Groups(id, es, convs) && Groups(id, es, others)
    ensures convs == others
  {
    hide IsGrouping, IsParentMap, IsDeduped, First, BodySet;
    var d: seq<Envelope>, m: Parents :| Grouped(id, es, convs, d, m);
    var d': seq<Envelope>, n: Parents :| Grouped(id, es, others, d', n);
    DedupedWithin(id, es, d, d');
    DedupedWithin(id, es, d', d);
    SameBodySet(d, d');
    SameBodiesSameViews(id, d, m, convs, d', n, others);
    assert |convs| == |Views(convs)| == |Views(others)| == |others|;
    forall i | 0 <= i < |convs|
      ensures convs[i] == others[i]
    {
      assert Views(convs)[i] == Views(others)[i];
      FirstsOf(id, es, d, m, convs, i);
      FirstsOf(id, es, d', n, others, i);
      SameViewSame(id, es, convs[i], others[i]);
    }
  }

  lemma SameBodySet(d: seq<Envelope>, d': seq<Envelope>)
    requires SameElements(d, d')
    ensures BodySet(d) == BodySet(d')
  {
  }

  lemma FirstsOf(id: Ids, es: seq<Envelope>, d: seq<Envelope>, m: Parents, convs: seq<Conversation>, i: nat)
    requires Grouped(id, es, convs, d, m) && i < |convs|
    ensures forall e :: e in convs[i].messages ==> First(id, es, id(e.body)) == Some(e)
  {
    hide First, RootOf, Ascending, DistinctIds;
    assert IsConversation(id, d, m, convs[i]);
  }

  lemma SameViewSame(id: Ids, es: seq<Envelope>, c: Conversation, d: Conversation)
    requires ViewOf(c) == ViewOf(d)
    requires forall e :: e in c.messages ==> First(id, es, id(e.body)) == Some(e)
    requires forall e :: e in d.messages ==> First(id, es, id(e.body)) == Some(e)
    ensures c == d
  {
    hide First;
    assert |c.messages| == |BodiesOf(c.messages)| == |d.messages|;
    forall j | 0 <= j < |c.messages|
      ensures c.messages[j] == d.messages[j]
    {
      assert BodiesOf(c.messages)[j] == BodiesOf(d.messages)[j];
      assert c.messages[j] in c.messages && d.messages[j] in d.messages;
    }
  }

  /** The ids of ce-mail identify bodies when the hash is injective. */
  lemma MessageIdsIdentify(p: Primitives, es: seq<Envelope>)
    requires InjectiveHash(p) && forall e :: e in es ==> Sized(e.body)
    ensures IdsIdentify((b: EnvelopeBody) => MessageId(p, b), es)
  {
    hide InjectiveHash, Sized;
    forall d, e | d in es && e in es && MessageId(p, d.body) == MessageId(p, e.body)
      ensures d.body == e.body
    {
      MessageIdIdentifies(p, d.body, e.body);
    }
  }
}
