/** What subject normalization does to the characters of a subject: letter case and spacing never matter, marks
    in any spelling are absorbed, and exactly the plain subjects stay as they are. */
module SubjectForms {
  import opened Encoding
  import opened Unicode
  import opened Subjects

  // ---- letter case ----

  lemma {:induction false} LowerTrimStart(s: string)
    ensures TrimStart(Lower(s)) == Lower(TrimStart(s))
  {
    if s != [] && IsWhitespace(s[0]) {
      LowerTrimStart(s[1..]);
      assert Lower(s)[1..] == Lower(s[1..]);
    }
  }

  lemma {:induction false} LowerTrimEnd(s: string)
    ensures TrimEnd(Lower(s)) == Lower(TrimEnd(s))
  {
    if s != [] && IsWhitespace(s[|s| - 1]) {
      LowerTrimEnd(s[..|s| - 1]);
      assert Lower(s)[..|s| - 1] == Lower(s[..|s| - 1]);
    }
  }

  lemma {:induction false} LowerCore(s: string)
    ensures Core(Lower(s)) == Lower(Core(s))
    decreases |s|
  {
    hide FirstToken;
    LowerTwice(s);
    var n := FirstToken(Lower(s), REPLY_PREFIXES);
    if n > 0 {
      TrimStartShortens(s[n..]);
      LowerCore(TrimStart(s[n..]));
      assert Lower(s)[n..] == Lower(s[n..]);
      LowerTrimStart(s[n..]);
    }
  }

  lemma {:induction false} LowerWordLen(s: string)
    ensures WordLen(Lower(s)) == WordLen(s)
  {
    if s != [] && !IsWhitespace(s[0]) {
      LowerWordLen(s[1..]);
      assert Lower(s)[1..] == Lower(s[1..]);
    }
  }

  lemma {:induction false} LowerWords(s: string)
    ensures Words(Lower(s)) == LowerAll(Words(s))
    decreases |s|
  {
    if s != [] {
      if IsWhitespace(s[0]) {
        LowerWords(s[1..]);
        assert Lower(s)[1..] == Lower(s[1..]);
      } else {
        var n := WordLen(s);
        LowerWordLen(s);
        LowerWords(s[n..]);
        assert Lower(s)[n..] == Lower(s[n..]) && Lower(s)[..n] == Lower(s[..n]);
      }
    }
  }

  lemma NormalizeLower(s: string)
    ensures Normalize(Lower(s)) == Normalize(s)
  {
    hide Core, Words, Join;
    LowerTrimStart(s);
    LowerTrimEnd(TrimStart(s));
    LowerCore(Trim(s));
    var c := Core(Trim(s));
    LowerWords(c);
    LowerJoin(Words(c));
    LowerTwice(Join(Words(c)));
  }

  /** Two subjects that differ at most in the case of ASCII letters have one normal form. */
  lemma CaseIrrelevant(a: string, b: string)
    requires |a| == |b|
    requires forall i :: 0 <= i < |a| ==>
               || a[i] == b[i]
               || ('A' <= a[i] <= 'Z' && b[i] as int == a[i] as int + 32)
               || ('A' <= b[i] <= 'Z' && a[i] as int == b[i] as int + 32)
    ensures Normalize(a) == Normalize(b)
  {
    hide Normalize;
    assert Lower(a) == Lower(b);
    NormalizeLower(a);
    NormalizeLower(b);
  }

  /** No capital is left. */
  lemma NoCapitals(s: string)
    ensures forall c :: c in Normalize(s) ==> !('A' <= c <= 'Z')
  {
    hide Normalize, Words, Join, FirstToken;
    NormalizeIsNormal(s);
    var t := Normalize(s);
    forall c | c in t
      ensures !('A' <= c <= 'Z')
    {
      var i :| 0 <= i < |t| && t[i] == c;
      assert Lower(t)[i] == t[i];
    }
  }

  // ---- marks, letter by letter ----

  /** `w` is one of the reply words, letter by letter in either case. */
  ghost predicate IsReplyWord(w: string) {
    exists p :: p in ["re", "fwd", "fw", "aw", "sv", "vs"] && |w| == |p|
                && forall i :: 0 <= i < |w| ==> w[i] == p[i] || w[i] as int == p[i] as int - 32
  }

  ghost predicate AllDecimal(digits: string) {
    forall i :: 0 <= i < |digits| ==> '0' <= digits[i] <= '9'
  }

  lemma ReplyWordIsListed(w: string)
    requires IsReplyWord(w)
    ensures Lower(w) in REPLY_PREFIXES
  {
    var p :| p in ["re", "fwd", "fw", "aw", "sv", "vs"] && |w| == |p|
             && forall i :: 0 <= i < |w| ==> w[i] == p[i] || w[i] as int == p[i] as int - 32;
    assert IsWord(p);
    assert Lower(w) == p;
  }

  /** A reply mark in front, with or without a count, changes nothing. */
  lemma ReplyMarkIsAbsorbed(w: string, digits: string, gap: string, subject: string)
    requires IsReplyWord(w) && AllDecimal(digits) && AllWhitespace(gap)
    ensures Normalize(w + ":" + gap + subject) == Normalize(subject)
    ensures Normalize(w + "[" + digits + "]:" + gap + subject) == Normalize(subject)
  {
    hide Normalize, IsReplyWord, AllWhitespace, Lower;
    ReplyWordIsListed(w);
    MarkAbsorbed(Mark(w, None, gap), subject);
    MarkAbsorbed(Mark(w, Some(digits), gap), subject);
    assert Token(Mark(w, None, gap)) == w + ":" by {
      assert w + "" == w;
    }
    assert Token(Mark(w, Some(digits), gap)) == w + "[" + digits + "]:" by {
      assert w + ("[" + digits + "]") + ":" == w + "[" + digits + "]:";
    }
  }

  // ---- spacing ----

  lemma {:induction false} WordsSkip(w: string, s: string)
    requires AllWhitespace(w)
    ensures Words(w + s) == Words(s)
  {
    if w == [] {
      assert w + s == s;
    } else {
      assert w[0] in w && (w + s)[1..] == w[1..] + s;
      WordsSkip(w[1..], s);
    }
  }

  lemma WordLenIs(s: string, n: nat)
    requires n <= |s| && (forall i :: 0 <= i < n ==> !IsWhitespace(s[i])) && (n == |s| || IsWhitespace(s[n]))
    ensures WordLen(s) == n
  {
    hide IsWhitespace;
  }

  /** The first word of a string that starts with `n` characters of it. */
  lemma WordThenMore(s: string, n: nat)
    requires 0 < n <= |s| && (forall i :: 0 <= i < n ==> !IsWhitespace(s[i])) && (n == |s| || IsWhitespace(s[n]))
    ensures Words(s) == [s[..n]] + Words(s[n..])
  {
    hide IsWhitespace;
    WordLenIs(s, n);
  }

  lemma SpaceThenMore(s: string)
    requires s != [] && IsWhitespace(s[0])
    ensures Words(s) == Words(s[1..])
  {
  }

  /** White space separates words, wherever it is and however much there is. */
  lemma {:induction false} WordsConcat(a: string, w: string, b: string)
    requires w != [] && AllWhitespace(w)
    ensures Words(a + w + b) == Words(a) + Words(b)
    decreases |a|
  {
    hide Words, IsWhitespace, AllWhitespace;
    var s := a + w + b;
    if a == [] {
      assert s == w + b;
      WordsSkip(w, b);
      NoWords();
    } else if IsWhitespace(a[0]) {
      assert s[1..] == a[1..] + w + b;
      SpaceThenMore(s);
      SpaceThenMore(a);
      WordsConcat(a[1..], w, b);
    } else {
      var n := WordLen(a);
      assert IsWhitespace(s[|a|]) by {
        FirstIsSpace(w);
        assert s[|a|] == w[0];
      }
      assert forall i :: 0 <= i < |a| ==> s[i] == a[i];
      WordThenMore(s, n);
      WordThenMore(a, n);
      assert s[..n] == a[..n] && s[n..] == a[n..] + w + b;
      WordsConcat(a[n..], w, b);
    }
  }

  lemma FirstIsSpace(w: string)
    requires w != [] && AllWhitespace(w)
    ensures IsWhitespace(w[0])
  {
  }

  lemma NoWords()
    ensures Words([]) == []
  {
  }

  lemma {:induction false} StartSplits(s: string) returns (w: string)
    ensures AllWhitespace(w) && s == w + TrimStart(s)
  {
    w := [];
    if s != [] && IsWhitespace(s[0]) {
      w := StartSplits(s[1..]);
      w := [s[0]] + w;
    }
  }

  lemma {:induction false} EndSplits(s: string) returns (w: string)
    ensures AllWhitespace(w) && s == TrimEnd(s) + w
  {
    w := [];
    if s != [] && IsWhitespace(s[|s| - 1]) {
      w := EndSplits(s[..|s| - 1]);
      w := w + [s[|s| - 1]];
      assert s == s[..|s| - 1] + [s[|s| - 1]];
    }
  }

  lemma TrimKeepsWords(s: string)
    ensures Words(TrimStart(s)) == Words(s) && Words(TrimEnd(s)) == Words(s)
  {
    var v := StartSplits(s);
    WordsSkip(v, TrimStart(s));
    var w := EndSplits(s);
    if w == [] {
      assert s == TrimEnd(s);
    } else {
      WordsConcat(TrimEnd(s), w, []);
      assert s == TrimEnd(s) + w + [];
    }
  }

  /** The words that are left when no reply mark leads any more. */
  ghost function CoreWords(ws: seq<string>, bound: nat): seq<string>
    decreases bound
  {
    if ws == [] || bound == 0 then ws else
      var n := FirstToken(Lower(ws[0]), REPLY_PREFIXES);
      if n == 0 then ws
      else CoreWords((if n < |ws[0]| then [ws[0][n..]] else []) + ws[1..], bound - 1)
  }

  /** A mark lies within the first word, so it is found there alone. */
  lemma TokenInFirstWord(s: string)
    requires s != [] && !IsWhitespace(s[0])
    ensures FirstToken(Lower(s), REPLY_PREFIXES) == FirstToken(Lower(s[..WordLen(s)]), REPLY_PREFIXES) <= WordLen(s)
  {
    hide FirstToken, Lower, LowerChar;
    var w := s[..WordLen(s)];
    var a, b := Lower(s), Lower(w);
    assert b == a[..|w|];
    assert |w| < |s| ==> IsWhitespace(a[|w|]);
    if FirstToken(a, REPLY_PREFIXES) > 0 {
      TokenCarries(a, b, |w|);
    } else if FirstToken(b, REPLY_PREFIXES) > 0 {
      TokenCarries(b, a, |w|);
    }
  }

  /** A token within the first `len` characters is one of any string that begins with these. */
  lemma TokenCarries(a: string, b: string, len: nat)
    requires FirstToken(a, REPLY_PREFIXES) > 0
    requires len <= |a| && len <= |b| && a[..len] == b[..len] && (len == |a| || IsWhitespace(a[len]))
    ensures FirstToken(b, REPLY_PREFIXES) == FirstToken(a, REPLY_PREFIXES) <= len
  {
    hide TokenEnd, FirstToken, AllWords, IsWhitespace;
    ReplyPrefixesAreWords();
    var p := FirstTokenFound(a, REPLY_PREFIXES);
    WordIn(REPLY_PREFIXES, p);
    TokenLocal(a, b, p);
    var n := TokenEnd(a, p);
    assert a[..n] == a[..len][..n] == b[..n];
    FirstTokenFinds(b, REPLY_PREFIXES, p);
  }

  lemma WordsFrom(s: string, n: nat)
    requires s != [] && !IsWhitespace(s[0]) && n <= WordLen(s)
    ensures Words(s[n..]) == (if n < WordLen(s) then [s[..WordLen(s)][n..]] else []) + Words(s)[1..]
  {
    hide Words, IsWhitespace;
    var len := WordLen(s);
    var r := s[n..];
    WordThenMore(s, len);
    if n < len {
      assert forall i :: 0 <= i < len - n ==> r[i] == s[n + i];
      WordThenMore(r, len - n);
      assert r[..len - n] == s[..len][n..] && r[len - n..] == s[len..];
    } else {
      assert r == s[len..];
    }
  }

  /** Stripping marks acts on the words, however they are spaced. */
  lemma {:induction false} CoreIsCoreWords(s: string, bound: nat)
    requires |s| <= bound && (s != [] ==> !IsWhitespace(s[0]))
    ensures Words(Core(s)) == CoreWords(Words(s), bound)
    decreases bound
  {
    hide FirstToken, Words, Core, CoreWords, IsWhitespace, TrimStart, Lower;
    if s == [] {
      NothingLeft(s, bound);
    } else {
      var n := FirstToken(Lower(s), REPLY_PREFIXES);
      TokenInFirstWord(s);
      WordThenMore(s, WordLen(s));
      CoreStep(s);
      CoreWordsStep(Words(s), bound);
      if n > 0 {
        TrimStartEnds(s[n..]);
        CoreIsCoreWords(TrimStart(s[n..]), bound - 1);
        TrimKeepsWords(s[n..]);
        WordsFrom(s, n);
      }
    }
  }

  lemma CoreStep(s: string)
    ensures var n := FirstToken(Lower(s), REPLY_PREFIXES); Core(s) == if n == 0 then s else Core(TrimStart(s[n..]))
  {
    hide FirstToken;
  }

  lemma CoreWordsStep(ws: seq<string>, bound: nat)
    requires ws != [] && bound > 0
    ensures var n := FirstToken(Lower(ws[0]), REPLY_PREFIXES);
      CoreWords(ws, bound) ==
        if n == 0 then ws else CoreWords((if n < |ws[0]| then [ws[0][n..]] else []) + ws[1..], bound - 1)
  {
    hide FirstToken;
  }

  lemma NothingLeft(s: string, bound: nat)
    requires s == []
    ensures Words(Core(s)) == CoreWords(Words(s), bound) == []
  {
    hide FirstToken;
    NoTokenInNothing(s);
  }

  lemma NoTokenInNothing(s: string)
    requires s == []
    ensures FirstToken(Lower(s), REPLY_PREFIXES) == 0
  {
  }

  lemma NormalizeOfWords(s: string, bound: nat)
    requires |s| <= bound
    ensures Normalize(s) == Lower(Join(CoreWords(Words(s), bound)))
  {
    hide Core, Words, Join, CoreWords;
    TrimStartEnds(s);
    TrimEndEnds(TrimStart(s));
    TrimKeepsWords(s);
    TrimKeepsWords(TrimStart(s));
    CoreIsCoreWords(Trim(s), bound);
  }

  /** How words are spaced, and with which white space, is irrelevant, inside a mark's gap as elsewhere. */
  lemma SpacingIrrelevant(a: string, v: string, w: string, b: string)
    requires v != [] && w != [] && AllWhitespace(v) && AllWhitespace(w)
    ensures Normalize(a + v + b) == Normalize(a + w + b)
  {
    hide Normalize, Words, Join, CoreWords;
    var bound := |a| + |v| + |w| + |b|;
    WordsConcat(a, v, b);
    WordsConcat(a, w, b);
    NormalizeOfWords(a + v + b, bound);
    NormalizeOfWords(a + w + b, bound);
  }

  /** So is white space around a subject. */
  lemma SurroundingsIrrelevant(v: string, s: string, w: string)
    requires AllWhitespace(v) && AllWhitespace(w)
    ensures Normalize(v + s + w) == Normalize(s)
  {
    hide Normalize, Words, Join, CoreWords;
    var bound := |v| + |s| + |w|;
    assert v + s + w == v + (s + w);
    WordsSkip(v, s + w);
    if w == [] {
      assert s + w == s;
    } else {
      WordsConcat(s, w, "");
      assert s + w == s + w + "";
      NoWords();
      assert Words(s) + Words("") == Words(s);
    }
    NormalizeOfWords(v + s + w, bound);
    NormalizeOfWords(s, bound);
  }

  // ---- what stays as it is ----

  /** Every white space character is a single blank between two other characters. */
  ghost predicate WellSpaced(t: string) {
    forall i :: 0 <= i < |t| && IsWhitespace(t[i]) ==>
                  t[i] == ' ' && 0 < i < |t| - 1 && !IsWhitespace(t[i - 1]) && !IsWhitespace(t[i + 1])
  }

  lemma {:induction false} WellSpacedIsJoined(t: string)
    requires WellSpaced(t)
    ensures Join(Words(t)) == t
    decreases |t|
  {
    if t != [] {
      var n := WordLen(t);
      if n < |t| {
        var r := t[n + 1..];
        assert t[n] == ' ' && n < |t| - 1;
        assert WellSpaced(r) by {
          forall i | 0 <= i < |r| && IsWhitespace(r[i])
            ensures r[i] == ' ' && 0 < i < |r| - 1 && !IsWhitespace(r[i - 1]) && !IsWhitespace(r[i + 1])
          {
            assert r[i] == t[n + 1 + i];
          }
        }
        WellSpacedIsJoined(r);
        assert t[n..][1..] == r && t[n..][0] == ' ';
        assert Words(t[n..]) == Words(r) && Words(r) != [];
        assert t == t[..n] + " " + r;
      }
    }
  }

  lemma {:induction false} JoinedIsWellSpaced(ws: seq<string>)
    requires WordsOk(ws)
    ensures WellSpaced(Join(ws)) && (ws != [] ==> Join(ws) != [] && !IsWhitespace(Join(ws)[0]))
  {
    if |ws| > 1 {
      JoinedIsWellSpaced(ws[1..]);
      var w, r := ws[0], Join(ws[1..]);
      assert Solid(w);
      var t := w + " " + r;
      forall i | 0 <= i < |t| && IsWhitespace(t[i])
        ensures t[i] == ' ' && 0 < i < |t| - 1 && !IsWhitespace(t[i - 1]) && !IsWhitespace(t[i + 1])
      {
        if i > |w| {
          assert t[i] == r[i - |w| - 1];
        }
      }
    } else if |ws| == 1 {
      assert Solid(ws[0]);
    }
  }

  /** `t` begins with this word, perhaps a count, and a colon. */
  ghost predicate BeginsWithMark(t: string) {
    exists p, digits :: p in ["re", "fwd", "fw", "aw", "sv", "vs"] && AllDecimal(digits)
                        && (p + ":" <= t || p + "[" + digits + "]:" <= t)
  }

  lemma TokenShape(t: string, p: string) returns (digits: string)
    requires TokenEnd(t, p) > 0
    ensures AllDecimal(digits) && (p + ":" <= t || p + "[" + digits + "]:" <= t)
  {
    var n := TokenEnd(t, p);
    digits := [];
    if t[|p|] == '[' {
      digits := t[|p| + 1..n - 2];
      assert t[..n] == p + "[" + digits + "]:";
    } else {
      assert t[..n] == p + ":";
    }
  }

  lemma MarkHasToken(t: string, p: string, digits: string)
    requires IsWord(p) && AllDecimal(digits) && (p + ":" <= t || p + "[" + digits + "]:" <= t)
    ensures TokenEnd(t, p) > 0
  {
    if p + ":" <= t {
      assert t[|p|] == (p + ":")[|p|];
      assert p == (p + ":")[..|p|] == t[..|p|];
    } else {
      var m, j := p + "[" + digits + "]:", |p| + 1 + |digits|;
      assert forall k :: 0 <= k < |m| ==> t[k] == m[k];
      assert p == m[..|p|] == t[..|p|];
      assert forall k :: |p| + 1 <= k < j ==> t[k] == digits[k - |p| - 1];
      assert t[j] == ']' && t[j + 1] == ':';
      CountSpans(t, |p| + 1, j);
    }
  }

  lemma NoTokenIffNoMark(t: string)
    ensures FirstToken(t, REPLY_PREFIXES) == 0 <==> !BeginsWithMark(t)
  {
    hide TokenEnd, FirstToken, AllDecimal, AllWords;
    ReplyPrefixesAreWords();
    if FirstToken(t, REPLY_PREFIXES) > 0 {
      var p := FirstTokenFound(t, REPLY_PREFIXES);
      var digits := TokenShape(t, p);
    } else if BeginsWithMark(t) {
      var p, digits :| p in ["re", "fwd", "fw", "aw", "sv", "vs"] && AllDecimal(digits)
                       && (p + ":" <= t || p + "[" + digits + "]:" <= t);
      assert p in REPLY_PREFIXES;
      WordIn(REPLY_PREFIXES, p);
      MarkHasToken(t, p, digits);
      FirstTokenFinds(t, REPLY_PREFIXES, p);
    }
  }

  /** A subject stays as it is exactly if it has no capitals, is well spaced, and begins with no mark. */
  lemma StaysAsItIs(t: string)
    ensures Normalize(t) == t <==>
            (forall c :: c in t ==> !('A' <= c <= 'Z')) && WellSpaced(t) && !BeginsWithMark(t)
  {
    hide Normalize, Words, Join, FirstToken, BeginsWithMark, WellSpaced;
    FixedIffNormal(t);
    NoTokenIffNoMark(t);
    if Normalize(t) == t {
      NoCapitals(t);
      JoinedIsWellSpaced(Words(t));
    }
    if (forall c :: c in t ==> !('A' <= c <= 'Z')) && WellSpaced(t) && !BeginsWithMark(t) {
      WellSpacedIsJoined(t);
      assert Lower(t) == t by {
        assert forall i :: 0 <= i < |t| ==> t[i] in t;
      }
    }
  }
}
