/** Subject normalization: reply prefixes stripped, white space collapsed, letters lowered. */
module Subjects {
  import opened Encoding
  import opened Unicode

  const REPLY_PREFIXES: seq<string> := ["re", "fwd", "fw", "aw", "sv", "vs"]

  // ---- one prefix token ----

  /** The index after the first `]` at or after `i`, if only digits stand before it. */
  function AfterCount(s: string, i: nat): (r: Option<nat>)
    requires i <= |s|
    ensures r.Some? ==> i < r.value <= |s| && s[r.value - 1] == ']'
    ensures r.Some? ==> forall k :: i <= k < r.value - 1 ==> IsDigit(s[k])
    decreases |s| - i
  {
    if i == |s| then None
    else if s[i] == ']' then Some(i + 1)
    else if IsDigit(s[i]) then AfterCount(s, i + 1)
    else None
  }

  /** The length of `p`, an optional bracketed count, and a colon at the front of `lower`; 0 if it does
      not start that way. */
  function TokenEnd(lower: string, p: string): (n: nat)
    ensures n <= |lower|
    ensures n > 0 ==> p < lower && lower[|p|] in "[:" && lower[n - 1] == ':'
  {
    if !(p <= lower) then 0 else
      var j := if |p| < |lower| && lower[|p|] == '[' then AfterCount(lower, |p| + 1) else Some(|p|);
      if j.Some? && j.value < |lower| && lower[j.value] == ':' then j.value + 1 else 0
  }

  function StripPrefixToken(lower: string, orig: string, p: string): (r: Option<string>)
    requires |lower| == |orig|
  {
    var n := TokenEnd(lower, p);
    if n == 0 then None else Some(TrimStart(orig[n..]))
  }

  predicate IsWord(p: string) {
    p != [] && forall i :: 0 <= i < |p| ==> 'a' <= p[i] <= 'z'
  }

  /** The end of the first token found, trying `ps` in order. */
  function FirstToken(lower: string, ps: seq<string>): (n: nat)
    ensures n <= |lower|
  {
    if ps == [] then 0
    else if TokenEnd(lower, ps[0]) > 0 then TokenEnd(lower, ps[0])
    else FirstToken(lower, ps[1..])
  }

  predicate AllWords(ps: seq<string>) {
    forall i :: 0 <= i < |ps| ==> IsWord(ps[i])
  }

  lemma ReplyPrefixesAreWords()
    ensures AllWords(REPLY_PREFIXES)
  {
  }

  function LetterRun(s: string): (n: nat)
    ensures n <= |s|
  {
    if s != [] && 'a' <= s[0] <= 'z' then 1 + LetterRun(s[1..]) else 0
  }

  lemma {:induction false} LetterRunIs(s: string, n: nat)
    requires n < |s| && !('a' <= s[n] <= 'z') && forall i :: 0 <= i < n ==> 'a' <= s[i] <= 'z'
    ensures LetterRun(s) == n
  {
    if n > 0 {
      LetterRunIs(s[1..], n - 1);
    }
  }

  /** At most one prefix can match: it is the whole run of letters the subject starts with. */
  lemma OnePrefixMatches(lower: string, p: string)
    requires IsWord(p) && TokenEnd(lower, p) > 0
    ensures p == lower[..LetterRun(lower)]
  {
    LetterRunIs(lower, |p|);
  }

  lemma {:induction false} FirstTokenFinds(lower: string, ps: seq<string>, p: string)
    requires AllWords(ps) && p in ps && TokenEnd(lower, p) > 0
    ensures FirstToken(lower, ps) == TokenEnd(lower, p)
  {
    if TokenEnd(lower, ps[0]) > 0 {
      assert ps[0] in ps;
      OnePrefixMatches(lower, ps[0]);
      OnePrefixMatches(lower, p);
    } else {
      FirstTokenFinds(lower, ps[1..], p);
    }
  }

  lemma {:induction false} FirstTokenFound(lower: string, ps: seq<string>) returns (p: string)
    requires FirstToken(lower, ps) > 0
    ensures p in ps && TokenEnd(lower, p) == FirstToken(lower, ps)
  {
    if TokenEnd(lower, ps[0]) > 0 {
      p := ps[0];
    } else {
      p := FirstTokenFound(lower, ps[1..]);
    }
  }

  /** The order in which the prefixes are listed is irrelevant. */
  lemma PrefixOrderIrrelevant(lower: string, ps: seq<string>, qs: seq<string>)
    requires AllWords(ps) && AllWords(qs) && forall p :: p in ps <==> p in qs
    ensures FirstToken(lower, ps) == FirstToken(lower, qs)
  {
    if FirstToken(lower, ps) > 0 {
      var p := FirstTokenFound(lower, ps);
      FirstTokenFinds(lower, qs, p);
    } else if FirstToken(lower, qs) > 0 {
      var q := FirstTokenFound(lower, qs);
      FirstTokenFinds(lower, ps, q);
    }
  }

  // ---- normalization ----

  /** What is left when no prefix token leads any more. */
  function Core(s: string): string
    decreases |s|
  {
    var n := FirstToken(Lower(s), REPLY_PREFIXES);
    if n == 0 then s else TrimStartShortens(s[n..]); Core(TrimStart(s[n..]))
  }

  lemma TrimStartShortens(s: string)
    ensures |TrimStart(s)| <= |s|
  {
  }

  function WordLen(s: string): (n: nat)
    ensures n <= |s| && (n < |s| ==> IsWhitespace(s[n]))
    ensures forall i :: 0 <= i < n ==> !IsWhitespace(s[i])
  {
    if s == [] || IsWhitespace(s[0]) then 0 else 1 + WordLen(s[1..])
  }

  /** `split_whitespace`. */
  function Words(s: string): (ws: seq<string>)
    ensures WordsOk(ws)
    decreases |s|
  {
    if s == [] then []
    else if IsWhitespace(s[0]) then Words(s[1..])
    else [s[..WordLen(s)]] + Words(s[WordLen(s)..])
  }

  predicate Solid(w: string) {
    w != [] && forall i :: 0 <= i < |w| ==> !IsWhitespace(w[i])
  }

  predicate WordsOk(ws: seq<string>) {
    forall i :: 0 <= i < |ws| ==> Solid(ws[i])
  }

  /** `join(" ")`. */
  function Join(ws: seq<string>): string {
    if ws == [] then []
    else if |ws| == 1 then ws[0]
    else ws[0] + " " + Join(ws[1..])
  }

  function Normalize(subject: string): string {
    Lower(Join(Words(Core(Trim(subject)))))
  }

  method NormalizeSubject(subject: string) returns (r: string)
    ensures r == Normalize(subject)
  {
    var s := Trim(subject);
    while true
      invariant Core(s) == Core(Trim(subject))
      decreases |s|
    {
      var lower := Lower(s);
      var stripped := false;
      var i := 0;
      while i < |REPLY_PREFIXES|
        invariant i <= |REPLY_PREFIXES| && !stripped
        invariant FirstToken(lower, REPLY_PREFIXES) == FirstToken(lower, REPLY_PREFIXES[i..])
      {
        var rest := StripPrefixToken(lower, s, REPLY_PREFIXES[i]);
        if rest.Some? {
          TrimStartShortens(s[TokenEnd(lower, REPLY_PREFIXES[i])..]);
          s := rest.value;
          stripped := true;
          break;
        }
        i := i + 1;
      }
      if !stripped {
        break;
      }
    }
    r := Lower(Join(Words(s)));
  }

  // ---- trimming ----

  lemma {:induction false} TrimEndCons(c: char, r: string)
    ensures TrimEnd([c] + r) ==
            if TrimEnd(r) != [] then [c] + TrimEnd(r) else if IsWhitespace(c) then [] else [c]
  {
    var s := [c] + r;
    if r == [] {
      assert s[..|s| - 1] == [];
    } else {
      assert s[|s| - 1] == r[|r| - 1];
      if IsWhitespace(r[|r| - 1]) {
        assert s[..|s| - 1] == [c] + r[..|r| - 1];
        TrimEndCons(c, r[..|r| - 1]);
      }
    }
  }

  lemma {:induction false} TrimEndAppend(a: string, r: string)
    requires a != [] && !IsWhitespace(a[|a| - 1])
    ensures TrimEnd(a + r) == a + TrimEnd(r)
  {
    if r == [] {
      assert a + r == a;
    } else if IsWhitespace(r[|r| - 1]) {
      assert (a + r)[..|a + r| - 1] == a + r[..|r| - 1];
      TrimEndAppend(a, r[..|r| - 1]);
    }
  }

  lemma {:induction false} TrimStartAppend(w: string, s: string)
    requires AllWhitespace(w)
    ensures TrimStart(w + s) == TrimStart(s)
  {
    if w == [] {
      assert w + s == s;
    } else {
      assert w[0] in w && (w + s)[1..] == w[1..] + s;
      TrimStartAppend(w[1..], s);
    }
  }

  lemma {:induction false} TrimsCommute(s: string)
    ensures TrimStart(TrimEnd(s)) == TrimEnd(TrimStart(s))
  {
    if s != [] {
      assert s == [s[0]] + s[1..];
      TrimEndCons(s[0], s[1..]);
      if IsWhitespace(s[0]) {
        TrimsCommute(s[1..]);
        if TrimEnd(s[1..]) != [] {
          assert TrimEnd(s)[1..] == TrimEnd(s[1..]);
        }
      }
    }
  }

  lemma {:induction false} TrimStartEnds(s: string)
    ensures var t := TrimStart(s);
      |t| <= |s| && t == s[|s| - |t|..] && (t != [] ==> !IsWhitespace(t[0]))
  {
    if s != [] && IsWhitespace(s[0]) {
      TrimStartEnds(s[1..]);
    }
  }

  lemma {:induction false} TrimEndEnds(s: string)
    ensures var t := TrimEnd(s);
      t <= s && (t != [] ==> !IsWhitespace(t[|t| - 1]))
  {
    if s != [] && IsWhitespace(s[|s| - 1]) {
      TrimEndEnds(s[..|s| - 1]);
    }
  }

  lemma TrimTrims(s: string)
    ensures Trimmed(Trim(s))
  {
    TrimStartEnds(s);
    TrimEndEnds(TrimStart(s));
  }

  lemma {:induction false} CoreIsBare(s: string)
    requires Trimmed(s)
    ensures Trimmed(Core(s)) && FirstToken(Lower(Core(s)), REPLY_PREFIXES) == 0
    decreases |s|
  {
    var n := FirstToken(Lower(s), REPLY_PREFIXES);
    if n > 0 {
      TrimStartEnds(s[n..]);
      CoreIsBare(TrimStart(s[n..]));
    }
  }

  // ---- words ----

  function LowerAll(ws: seq<string>): (ls: seq<string>)
    ensures |ls| == |ws| && forall i :: 0 <= i < |ws| ==> ls[i] == Lower(ws[i])
  {
    seq(|ws|, i requires 0 <= i < |ws| => Lower(ws[i]))
  }

  lemma LowerConcat(a: string, b: string)
    ensures Lower(a + b) == Lower(a) + Lower(b)
  {
  }

  lemma LowerTwice(s: string)
    ensures Lower(Lower(s)) == Lower(s)
  {
  }

  lemma {:induction false} LowerJoin(ws: seq<string>)
    ensures Lower(Join(ws)) == Join(LowerAll(ws))
  {
    if |ws| > 1 {
      LowerConcat(ws[0] + " ", Join(ws[1..]));
      LowerConcat(ws[0], " ");
      LowerJoin(ws[1..]);
      assert LowerAll(ws)[1..] == LowerAll(ws[1..]);
      assert Lower(" ") == " ";
    }
  }

  lemma {:induction false} WordLenAppend(w: string, r: string)
    requires Solid(w) && (r == [] || IsWhitespace(r[0]))
    ensures WordLen(w + r) == |w|
  {
    if |w| == 1 {
      assert (w + r)[1..] == r;
    } else {
      assert (w + r)[1..] == w[1..] + r;
      WordLenAppend(w[1..], r);
    }
  }

  lemma WordThenRest(w: string, rest: string)
    requires Solid(w)
    ensures Words(w + " " + rest) == [w] + Words(rest)
  {
    var r := " " + rest;
    var s := w + r;
    assert w + " " + rest == s;
    WordLenAppend(w, r);
    assert s[..|w|] == w && s[|w|..] == r;
    assert r[1..] == rest;
    assert Words(r) == Words(rest);
  }

  lemma {:induction false} WordsOfJoin(ws: seq<string>)
    requires WordsOk(ws)
    ensures Words(Join(ws)) == ws
  {
    if |ws| == 1 {
      WordLenAppend(ws[0], []);
      assert ws[0] + [] == ws[0];
      assert ws == [ws[0]];
    } else if |ws| > 1 {
      WordsOfJoin(ws[1..]);
      WordThenRest(ws[0], Join(ws[1..]));
      assert Join(ws) == ws[0] + " " + Join(ws[1..]);
      assert ws == [ws[0]] + ws[1..];
    }
  }

  lemma {:induction false} JoinTrimmed(ws: seq<string>)
    requires WordsOk(ws)
    ensures Trimmed(Join(ws)) && (ws != [] ==> ws[0] <= Join(ws))
    ensures |ws| > 1 ==> |Join(ws)| > |ws[0]| && Join(ws)[|ws[0]|] == ' '
    ensures ws != [] ==> Join(ws) != []
  {
    if |ws| > 1 {
      JoinTrimmed(ws[1..]);
      assert Join(ws)[|Join(ws)| - 1] == Join(ws[1..])[|Join(ws[1..])| - 1];
    }
  }

  // ---- normal forms ----

  /** Lower case, single spaces between words and none around them, and no leading reply prefix. */
  predicate IsNormal(t: string) {
    Lower(t) == t && Join(Words(t)) == t && FirstToken(t, REPLY_PREFIXES) == 0
  }

  /** A token is recognised by its own characters, none of which is white space. */
  lemma {:induction false} CountLocal(a: string, b: string, i: nat, n: nat)
    requires i <= |a| && i <= |b| && AfterCount(a, i) == Some(n) && n <= |b| && a[..n] == b[..n]
    ensures AfterCount(b, i) == Some(n)
    decreases |a| - i
  {
    assert a[i] == a[..n][i] == b[i];
    if a[i] != ']' {
      CountLocal(a, b, i + 1, n);
    }
  }

  lemma TokenLocal(a: string, b: string, p: string)
    requires IsWord(p) && TokenEnd(a, p) > 0
    ensures var n := TokenEnd(a, p);
      && (forall i :: 0 <= i < n ==> !IsWhitespace(a[i]))
      && (n <= |b| && a[..n] == b[..n] ==> TokenEnd(b, p) == n)
  {
    var n := TokenEnd(a, p);
    forall i | 0 <= i < n
      ensures !IsWhitespace(a[i])
    {
      if i < |p| {
        assert a[i] == p[i];
      }
    }
    if n <= |b| && a[..n] == b[..n] {
      assert p == a[..|p|] == a[..n][..|p|] == b[..|p|];
      assert a[|p|] == a[..n][|p|] == b[|p|] && b[n - 1] == b[..n][n - 1];
      if a[|p|] == '[' {
        CountLocal(a, b, |p| + 1, n - 1);
      }
    }
  }

  lemma FirstWord(s: string)
    requires Trimmed(s)
    ensures Words(s) != [] ==> Words(s)[0] <= s && Words(s)[0] <= Join(Words(s))
    ensures |Words(s)| > 1 ==> |Words(s)[0]| < |Join(Words(s))| && Join(Words(s))[|Words(s)[0]|] == ' '
    ensures |Words(s)| == 1 ==> Join(Words(s)) == Words(s)[0]
  {
    JoinTrimmed(Words(s));
  }

  /** Collapsing white space cannot create a prefix token: a token lies within the first word. */
  lemma CollapseCreatesNoToken(s: string)
    requires Trimmed(s) && FirstToken(Lower(s), REPLY_PREFIXES) == 0
    ensures FirstToken(Lower(Join(Words(s))), REPLY_PREFIXES) == 0
  {
    hide Words, Trimmed, TokenEnd, FirstToken, AllWords;
    var ws := Words(s);
    var t := Lower(Join(ws));
    if FirstToken(t, REPLY_PREFIXES) > 0 {
      ReplyPrefixesAreWords();
      var p := FirstTokenFound(t, REPLY_PREFIXES);
      var n := TokenEnd(t, p);
      assert IsWord(p) by {
        WordIn(REPLY_PREFIXES, p);
      }
      TokenLocal(t, Lower(s), p);
      FirstWord(s);
      assert |ws| > 1 ==> t[|ws[0]|] == ' ';
      assert n <= |ws[0]|;
      assert t[..n] == Lower(s)[..n];
      FirstTokenFinds(Lower(s), REPLY_PREFIXES, p);
    }
  }

  lemma WordIn(ps: seq<string>, p: string)
    requires AllWords(ps) && p in ps
    ensures IsWord(p)
  {
  }

  lemma NormalizeIsNormal(subject: string)
    ensures IsNormal(Normalize(subject))
  {
    var s := Core(Trim(subject));
    TrimTrims(subject);
    CoreIsBare(Trim(subject));
    CollapseCreatesNoToken(s);
    LowerTwice(Join(Words(s)));
    LowerJoin(Words(s));
    var ls := LowerAll(Words(s));
    assert WordsOk(ls) by {
      forall i | 0 <= i < |ls|
        ensures Solid(ls[i])
      {
        assert Solid(Words(s)[i]);
      }
    }
    WordsOfJoin(ls);
  }

  /** The subjects that normalization leaves alone are exactly the normal forms. */
  lemma FixedIffNormal(t: string)
    ensures Normalize(t) == t <==> IsNormal(t)
  {
    NormalizeIsNormal(t);
    if IsNormal(t) {
      JoinTrimmed(Words(t));
      TrimmedIsFixed(t);
    }
  }

  lemma NormalizeIdempotent(subject: string)
    ensures Normalize(Normalize(subject)) == Normalize(subject)
  {
    NormalizeIsNormal(subject);
    FixedIffNormal(Normalize(subject));
  }

  // ---- reply prefixes are absorbed ----

  /** A reply mark as mail clients write it: a listed word in any letter case, perhaps a count, a colon
      and any white space. */
  datatype Mark = Mark(word: string, count: Option<string>, gap: string)

  predicate MarkOk(m: Mark) {
    && Lower(m.word) in REPLY_PREFIXES
    && (m.count.Some? ==> forall i :: 0 <= i < |m.count.value| ==> IsDigit(m.count.value[i]))
    && AllWhitespace(m.gap)
  }

  function Token(m: Mark): string {
    m.word + (if m.count.Some? then "[" + m.count.value + "]" else "") + ":"
  }

  function Marked(marks: seq<Mark>, subject: string): string {
    if marks == [] then subject else Token(marks[0]) + marks[0].gap + Marked(marks[1..], subject)
  }

  lemma {:induction false} CountSpans(s: string, i: nat, j: nat)
    requires i <= j < |s| && s[j] == ']' && forall k :: i <= k < j ==> IsDigit(s[k])
    ensures AfterCount(s, i) == Some(j + 1)
    decreases j - i
  {
    if i < j {
      CountSpans(s, i + 1, j);
    }
  }

  lemma MarkIsToken(m: Mark, rest: string)
    requires MarkOk(m)
    ensures TokenEnd(Lower(Token(m) + rest), Lower(m.word)) == |Token(m)|
  {
    var p, s := Lower(m.word), Lower(Token(m) + rest);
    assert p == s[..|p|];
    if m.count.Some? {
      assert s[|p|] == '[';
      var j := |p| + 1 + |m.count.value|;
      assert forall k :: |p| + 1 <= k < j ==> s[k] == LowerChar(m.count.value[k - |p| - 1]);
      assert s[j] == ']' && s[j + 1] == ':';
      CountSpans(s, |p| + 1, j);
    } else {
      assert s[|p|] == ':';
    }
  }

  lemma MarkAbsorbed(m: Mark, subject: string)
    requires MarkOk(m)
    ensures Normalize(Token(m) + m.gap + subject) == Normalize(subject)
  {
    var tok, r := Token(m), m.gap + subject;
    var s := tok + r;
    assert Token(m) + m.gap + subject == s;
    ReplyPrefixesAreWords();
    assert IsWord(Lower(m.word)) && s[0] == m.word[0];
    assert !IsWhitespace(s[0]) by {
      assert Lower(m.word)[0] == LowerChar(m.word[0]);
    }
    assert TrimStart(s) == s;
    TrimEndAppend(tok, r);
    var u := TrimEnd(r);
    assert Trim(s) == tok + u;
    MarkIsToken(m, u);
    FirstTokenFinds(Lower(tok + u), REPLY_PREFIXES, Lower(m.word));
    assert (tok + u)[|tok|..] == u;
    TrimsCommute(r);
    TrimStartAppend(m.gap, subject);
  }

  /** However many reply marks pile up in front of a subject, its normal form does not change. */
  lemma {:induction false} MarksAbsorbed(marks: seq<Mark>, subject: string)
    requires forall i :: 0 <= i < |marks| ==> MarkOk(marks[i])
    ensures Normalize(Marked(marks, subject)) == Normalize(subject)
  {
    if marks != [] {
      MarkAbsorbed(marks[0], Marked(marks[1..], subject));
      MarksAbsorbed(marks[1..], subject);
    }
  }
}
