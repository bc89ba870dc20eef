/** Splitting the joined chunks again gives the same chunks. */
module Stability {
  import opened Text
  import opened Sentences
  import opened Chunker
  import opened Punctuation

  predicate NoParagraphBreak(s: string) {
    forall i | 0 <= i < |s| - 1 :: !(s[i] == '\n' && s[i + 1] == '\n')
  }

  /** Full stop, exclamation mark, question mark or ellipsis. */
  predicate EndsSentence(c: char) {
    c in {'.', '!', '?', '\U{2026}'}
  }

  predicate NoSentenceBreak(s: string) {
    forall i | 0 <= i < |s| - 1 :: !(EndsSentence(s[i]) && IsSpace(s[i + 1]))
  }

  /** Sentences as one paragraph yields them: no break inside, an ender before each next one. */
  ghost predicate Chained(ss: seq<string>) {
    && Tidy(ss)
    && (forall i | 0 <= i < |ss| :: NoSentenceBreak(ss[i]))
    && (forall i | 0 <= i < |ss| - 1 :: ss[i] != "" && IsEnder(ss[i][|ss[i]| - 1]))
  }

  /** Without two newlines in a row the paragraph split is the identity. */
  lemma {:induction false} OneParagraph(s: string, acc: string)
    requires NoParagraphBreak(s)
    ensures ParagraphPieces(s, acc) == [acc + s]
  {
    if s == "" {
      assert acc + s == acc;
    } else {
      OneParagraph(s[1..], acc + [s[0]]);
      assert acc + [s[0]] + s[1..] == acc + s;
    }
  }

  /** No paragraph keeps a blank line inside. */
  lemma {:induction false} ParagraphsUnbroken(s: string, acc: string)
    requires NoParagraphBreak(acc)
    requires acc != "" && s != "" && acc[|acc| - 1] == '\n' ==> s[0] != '\n'
    ensures forall i | 0 <= i < |ParagraphPieces(s, acc)| :: NoParagraphBreak(ParagraphPieces(s, acc)[i])
    decreases |s|
  {
    if s == "" {
    } else if |s| >= 2 && s[0] == '\n' && s[1] == '\n' {
      ParagraphsUnbroken(DropNewlines(s), "");
    } else {
      ParagraphsUnbroken(s[1..], acc + [s[0]]);
    }
  }

  lemma ChainCons(acc: string, rest: seq<string>)
    requires acc != "" && Stripped(acc) && NoSentenceBreak(acc) && IsEnder(acc[|acc| - 1])
    requires Chained(rest)
    ensures Chained([acc] + rest)
  { }

  lemma GrowsUnbroken(acc: string, c: char)
    requires NoSentenceBreak(acc) && !BreaksBefore(acc, c)
    ensures NoSentenceBreak(acc + [c])
  { }

  /** After a break the rest still starts and ends with a non-space. */
  lemma TailStaysStripped(s: string)
    requires s != "" && !IsSpace(s[|s| - 1])
    ensures TrimLeft(s) != "" && Stripped(TrimLeft(s))
  {
    TrimLeftSpec(s);
    if TrimLeft(s) == "" {
      BlankIsInvisible(s);
      assert false;
    }
    assert TrimLeft(s)[|TrimLeft(s)| - 1] == s[|s| - 1];
  }

  lemma {:induction false} PiecesAreChained(s: string, acc: string)
    requires acc + s != "" && NoSentenceBreak(acc)
    requires !IsSpace(if acc != "" then acc[0] else s[0])
    requires !IsSpace(if s != "" then s[|s| - 1] else acc[|acc| - 1])
    ensures Chained(SentencePieces(s, acc))
    ensures SentencePieces(s, acc) != []
    decreases |s|
  {
    if s != "" {
      if BreaksBefore(acc, s[0]) {
        TailStaysStripped(s);
        PiecesAreChained(TrimLeft(s), "");
        ChainCons(acc, SentencePieces(TrimLeft(s), ""));
      } else {
        GrowsUnbroken(acc, s[0]);
        PiecesAreChained(s[1..], acc + [s[0]]);
      }
    }
  }

  lemma {:induction false} ScanSentence(acc: string, s: string, tail: string)
    requires NoSentenceBreak(acc + s)
    ensures SentencePieces(s + tail, acc) == SentencePieces(tail, acc + s)
    decreases |s|
  {
    if s == "" {
      assert s + tail == tail && acc + s == acc;
    } else {
      assert (s + tail)[1..] == s[1..] + tail;
      assert (acc + [s[0]]) + s[1..] == acc + s;
      assert !BreaksBefore(acc, s[0]) by {
        if acc != "" {
          assert (acc + s)[|acc| - 1] == acc[|acc| - 1] && (acc + s)[|acc|] == s[0];
        }
      }
      ScanSentence(acc + [s[0]], s[1..], tail);
    }
  }

  lemma SplitAfter(x: string, rest: string)
    requires x != "" && IsEnder(x[|x| - 1]) && rest != "" && !IsSpace(rest[0])
    ensures SentencePieces(" " + rest, x) == [x] + SentencePieces(rest, "")
  {
    assert (" " + rest)[1..] == rest;
    assert TrimLeft(" " + rest) == TrimLeft(rest) == rest;
    assert BreaksBefore(x, ' ');
  }

  lemma ChainTail(ss: seq<string>)
    requires |ss| > 1 && Chained(ss)
    ensures Chained(ss[1..])
    ensures NoSentenceBreak(ss[0]) && ss[0] != "" && IsEnder(ss[0][|ss[0]| - 1])
    ensures Join(ss[1..]) != "" && !IsSpace(Join(ss[1..])[0])
  {
    JoinStripped(ss[1..]);
  }

  lemma JoinCons(ss: seq<string>)
    requires |ss| > 1
    ensures Join(ss) == ss[0] + (" " + Join(ss[1..]))
  { }

  lemma ChainHead(ss: seq<string>)
    requires ss != [] && Chained(ss)
    ensures NoSentenceBreak(ss[0]) && ss == [ss[0]] + ss[1..]
    ensures |ss| == 1 ==> Join(ss) == ss[0] && ss == [ss[0]]
  { }

  lemma SplitOne(x: string)
    requires NoSentenceBreak(x)
    ensures SentencePieces(x, "") == [x]
  {
    assert "" + x == x && x + "" == x;
    ScanSentence("", x, "");
  }

  lemma SplitHead(x: string, rest: string)
    requires NoSentenceBreak(x) && x != "" && IsEnder(x[|x| - 1]) && rest != "" && !IsSpace(rest[0])
    ensures SentencePieces(x + (" " + rest), "") == [x] + SentencePieces(rest, "")
  {
    hide *;
    assert "" + x == x;
    ScanSentence("", x, " " + rest);
    SplitAfter(x, rest);
  }

  /** Joining chained sentences with single spaces loses none of the boundaries. */
  lemma {:induction false} SplitUndoesJoin(ss: seq<string>)
    requires ss != [] && Chained(ss)
    ensures SentencePieces(Join(ss), "") == ss
  {
    hide *;
    ChainHead(ss);
    if |ss| == 1 {
      SplitOne(ss[0]);
    } else {
      ChainTail(ss);
      JoinCons(ss);
      SplitHead(ss[0], Join(ss[1..]));
      SplitUndoesJoin(ss[1..]);
    }
  }

  lemma ParagraphOf(t: string)
    requires t != "" && Stripped(t) && NoParagraphBreak(t)
    ensures AllParagraphSentences(StripAll(ParagraphPieces(t, ""))) == SentencePieces(t, "")
    ensures Chained(SentencePieces(t, ""))
  {
    OneParagraph(t, "");
    assert "" + t == t;
    StripAllIdentity([t]);
    PiecesAreChained(t, "");
    StripAllIdentity(SentencePieces(t, ""));
    assert AllParagraphSentences([t]) == ParagraphSentences(t) + AllParagraphSentences([]);
  }

  /** Without a blank line the sentences are the raw pieces, and they are chained. */
  lemma SentencesOfOneParagraph(text: string)
    requires NoParagraphBreak(text)
    ensures Chained(SentencesOf(text))
    ensures !Blank(text) ==> SentencesOf(text) == SentencePieces(Strip(text), "")
  {
    StripSpec(text);
    var lo, hi := StripIsSlice(text);
    if Strip(text) != "" {
      ParagraphOf(Strip(text));
    }
  }

  lemma {:induction false} JoinRendered(plan: seq<Piece>, maxChars: nat, maxSentences: int)
    requires maxChars >= 1 && ValidLayout(plan, maxChars, maxSentences) && Tidy(Flatten(plan))
    requires forall i | 0 <= i < |plan| :: plan[i].Group?
    ensures Join(Render(plan, maxChars)) == Join(Flatten(plan))
    ensures plan != [] ==> Render(plan, maxChars) != [] && Flatten(plan) != []
  {
    if plan != [] {
      var g, rest := plan[0].sentences, plan[1..];
      TidySplit(g, Flatten(rest));
      RenderPieceSpec(plan[0], maxChars, maxSentences);
      JoinRendered(rest, maxChars, maxSentences);
      if rest == [] {
        assert Flatten(plan) == g && Render(plan, maxChars) == [Join(g)];
      } else {
        JoinConcat(g, Flatten(rest));
        JoinConcat([Join(g)], Render(rest, maxChars));
      }
    }
  }

  lemma {:induction false} AllGroups(plan: seq<Piece>, maxChars: nat, maxSentences: int)
    requires ValidLayout(plan, maxChars, maxSentences)
    requires forall i | 0 <= i < |Flatten(plan)| :: |Flatten(plan)[i]| <= maxChars
    ensures forall i | 0 <= i < |plan| :: plan[i].Group?
  {
    if plan != [] {
      var head, rest := Content(plan[0]), Flatten(plan[1..]);
      assert forall i | 0 <= i < |rest| :: rest[i] == Flatten(plan)[|head| + i];
      AllGroups(plan[1..], maxChars, maxSentences);
      assert head[0] == Flatten(plan)[0];
    }
  }

  // ---------------------------------------------------------------- any text

  ghost predicate AllUnbroken(ss: seq<string>) {
    forall i | 0 <= i < |ss| :: NoParagraphBreak(ss[i])
  }

  /** Sentences as any text yields them. */
  ghost predicate Unbroken(ss: seq<string>) {
    Tidy(ss) && AllUnbroken(ss) && forall i | 0 <= i < |ss| :: NoSentenceBreak(ss[i])
  }

  /** Every sentence before the last one ends with an ender. */
  predicate EndersBetween(ss: seq<string>) {
    forall i | 0 <= i < |ss| - 1 :: ss[i] != "" && EndsSentence(ss[i][|ss[i]| - 1])
  }

  lemma ConsUnbroken(s: string, rest: seq<string>)
    requires NoParagraphBreak(s) && AllUnbroken(rest)
    ensures AllUnbroken([s] + rest) && AllUnbroken([s])
  {
    hide NoParagraphBreak;
  }

  lemma NoneUnbroken()
    ensures AllUnbroken([])
  { }

  lemma SliceUnbroken(s: string, lo: nat, hi: nat)
    requires lo <= hi <= |s| && NoParagraphBreak(s)
    ensures NoParagraphBreak(s[lo..hi])
  { }

  lemma AroundBreakUnbroken(acc: string, s: string)
    requires NoParagraphBreak(acc + s)
    ensures NoParagraphBreak(acc) && NoParagraphBreak(TrimLeft(s))
  {
    hide NoParagraphBreak;
    var whole, rest := acc + s, TrimLeft(s);
    TrimLeftSpec(s);
    SliceUnbroken(whole, 0, |acc|);
    SliceUnbroken(whole, |whole| - |rest|, |whole|);
    assert whole[0..|acc|] == acc && whole[|whole| - |rest|..|whole|] == rest;
  }

  lemma {:induction false} PiecesUnbroken(s: string, acc: string)
    requires NoParagraphBreak(acc + s)
    ensures AllUnbroken(SentencePieces(s, acc))
    decreases |s|
  {
    hide NoParagraphBreak, AllUnbroken;
    AroundBreakUnbroken(acc, s);
    assert AllUnbroken([]) by { NoneUnbroken(); }
    if s == "" {
      ConsUnbroken(acc, []);
    } else if BreaksBefore(acc, s[0]) {
      assert "" + TrimLeft(s) == TrimLeft(s);
      PiecesUnbroken(TrimLeft(s), "");
      ConsUnbroken(acc, SentencePieces(TrimLeft(s), ""));
    } else {
      assert (acc + [s[0]]) + s[1..] == acc + s;
      PiecesUnbroken(s[1..], acc + [s[0]]);
    }
  }

  lemma {:induction false} StripAllUnbroken(ss: seq<string>)
    requires AllUnbroken(ss)
    ensures AllUnbroken(StripAll(ss))
  {
    hide NoParagraphBreak;
    if ss != [] {
      var lo, hi := StripIsSlice(ss[0]);
      SliceUnbroken(ss[0], lo, hi);
      StripAllUnbroken(ss[1..]);
    }
  }

  lemma ParagraphUnbroken(p: string)
    requires p != "" && Stripped(p) && NoParagraphBreak(p)
    ensures Unbroken(ParagraphSentences(p))
  {
    assert "" + p == p;
    PiecesAreChained(p, "");
    PiecesUnbroken(p, "");
    StripAllIdentity(SentencePieces(p, ""));
  }

  lemma {:induction false} ParagraphsAreUnbroken(ps: seq<string>)
    requires Tidy(ps) && AllUnbroken(ps)
    ensures Unbroken(AllParagraphSentences(ps))
  {
    hide NoParagraphBreak, NoSentenceBreak, ParagraphSentences;
    if ps != [] {
      ParagraphUnbroken(ps[0]);
      ParagraphsAreUnbroken(ps[1..]);
    }
  }

  /** No sentence of any text holds a sentence break or a blank line. */
  lemma SentencesAreUnbroken(text: string)
    ensures Unbroken(SentencesOf(text))
  {
    var cleaned := Strip(text);
    if cleaned != "" {
      ParagraphsUnbroken(cleaned, "");
      StripAllUnbroken(ParagraphPieces(cleaned, ""));
      StripAllSpec(ParagraphPieces(cleaned, ""));
      ParagraphsAreUnbroken(StripAll(ParagraphPieces(cleaned, "")));
    }
  }

  lemma {:induction false} JoinUnbroken(ss: seq<string>)
    requires AllUnbroken(ss)
    ensures NoParagraphBreak(Join(ss))
  {
    if |ss| > 1 {
      JoinUnbroken(ss[1..]);
      SpacedUnbroken(ss[0], Join(ss[1..]));
    }
  }

  lemma SpacedUnbroken(a: string, b: string)
    requires NoParagraphBreak(a) && NoParagraphBreak(b)
    ensures NoParagraphBreak(a + " " + b)
  { }

  /** Sentences survive joining and splitting exactly when all but the last end with an ender. */
  lemma SplitUndoesJoinIff(ss: seq<string>)
    requires Unbroken(ss)
    ensures SentencesOf(Join(ss)) == ss <==> EndersBetween(ss)
  {
    var joined := Join(ss);
    JoinUnbroken(ss);
    SentencesOfOneParagraph(joined);
    JoinStripped(ss);
    StripSpec(joined);
    if ss == [] {
    } else if EndersBetween(ss) {
      SplitUndoesJoin(ss);
    }
  }

  /** Chunking is stable. With limits no sentence exceeds, splitting the joined chunks again
      gives the sentences of the text exactly when every sentence before the last ends with an
      ender, and then the same chunks; text without a blank line inside always does. */
  lemma SplitIsStable(text: string, maxChars: nat, maxSentences: int)
    requires maxChars >= 1
    requires forall i | 0 <= i < |SentencesOf(text)| :: |SentencesOf(text)[i]| <= maxChars
    ensures var joined := Join(Chunks(text, maxChars, maxSentences));
      && (SentencesOf(joined) == SentencesOf(text) <==> EndersBetween(SentencesOf(text)))
      && (EndersBetween(SentencesOf(text)) ==>
            Chunks(joined, maxChars, maxSentences) == Chunks(text, maxChars, maxSentences))
    ensures NoParagraphBreak(text) ==> EndersBetween(SentencesOf(text))
  {
    var ss, plan := SentencesOf(text), PlanOf(text, maxChars, maxSentences);
    PlanOfSpec(text, maxChars, maxSentences);
    AllGroups(plan, maxChars, maxSentences);
    JoinRendered(plan, maxChars, maxSentences);
    SentencesAreUnbroken(text);
    SplitUndoesJoinIff(ss);
    if NoParagraphBreak(text) {
      SentencesOfOneParagraph(text);
    }
  }

  /** The same for what the service really chunks: any input after preprocessing. */
  lemma PreprocessedSplitIsStable(input: string, expand: string -> string, maxChars: nat, maxSentences: int)
    requires maxChars >= 1
    requires var ss := SentencesOf(PreprocessForTts(input, expand));
      forall i | 0 <= i < |ss| :: |ss[i]| <= maxChars
    ensures var text := PreprocessForTts(input, expand);
      && ParagraphPieces(text, "") == [text]
      && Chunks(Join(Chunks(text, maxChars, maxSentences)), maxChars, maxSentences)
         == Chunks(text, maxChars, maxSentences)
  {
    var text := PreprocessForTts(input, expand);
    CleanIsStable(expand(input));
    OneParagraph(text, "");
    assert "" + text == text;
    SplitIsStable(text, maxChars, maxSentences);
  }

  lemma OneWord(w: string)
    requires |w| == 1 && !IsSpace(w[0])
    ensures ParagraphSentences(w) == [w]
  {
    assert w[1..] == "" && "" + [w[0]] == w;
    assert SentencePieces(w, "") == [w];
    StripAllIdentity([w]);
  }

  lemma TwoWords(a: string, b: string)
    requires |a| == |b| == 1 && !IsSpace(a[0]) && !IsSpace(b[0])
    ensures StripAll([a, b]) == [a, b] && AllParagraphSentences([a, b]) == [a, b]
  {
    OneWord(a);
    OneWord(b);
    StripAllIdentity([a, b]);
    hide ParagraphSentences, StripAll, IsSpace;
    assert [a, b][1..] == [b] && [b][1..] == [];
    assert AllParagraphSentences([]) == [];
    assert AllParagraphSentences([b]) == [b] + [];
  }

  lemma ScanParagraph(s: string, acc: string)
    requires s != "" && (|s| == 1 || s[0] != '\n' || s[1] != '\n')
    ensures ParagraphPieces(s, acc) == ParagraphPieces(s[1..], acc + [s[0]])
  { }

  lemma BreakParagraph(rest: string, acc: string)
    requires rest != "" && rest[0] != '\n'
    ensures ParagraphPieces("\n\n" + rest, acc) == [acc] + ParagraphPieces(rest, "")
  {
    var s := "\n\n" + rest;
    assert s[1..] == "\n" + rest && s[1..][1..] == rest;
    assert DropNewlines(s) == DropNewlines(s[1..]) == DropNewlines(rest) == rest;
  }

  lemma TwoParagraphs(a: string, b: string)
    requires |a| == |b| == 1 && !IsSpace(a[0]) && !IsSpace(b[0])
    ensures ParagraphPieces(a + "\n\n" + b, "") == [a, b]
  {
    var text := a + "\n\n" + b;
    assert text[1..] == "\n\n" + b && "" + [text[0]] == a;
    assert b[1..] == "" && "" + [b[0]] == b;
    ScanParagraph(text, "");
    BreakParagraph(b, a);
    ScanParagraph(b, "");
    assert ParagraphPieces("", b) == [b];
    hide ParagraphPieces;
  }

  /** The law does fail: a blank line after text without an ender is not kept by joining. */
  lemma HeadingIsNotKept(a: string, b: string)
    requires |a| == |b| == 1 && !IsSpace(a[0]) && !IsSpace(b[0]) && !EndsSentence(a[0])
    ensures var text := a + "\n\n" + b;
      SentencesOf(text) == [a, b] && SentencesOf(Join(SentencesOf(text))) != SentencesOf(text)
  {
    var text := a + "\n\n" + b;
    StripSpec(text);
    TwoParagraphs(a, b);
    TwoWords(a, b);
    SentencesAreUnbroken(text);
    SplitUndoesJoinIff(SentencesOf(text));
    assert SentencesOf(text) == [a, b] by {
      hide ParagraphPieces, StripAll, AllParagraphSentences, Strip;
    }
    hide SentencesOf, Join, Unbroken;
    assert !EndersBetween([a, b]);
  }
}
