/** `clean_punctuation`: its normal form and what it keeps of a text. */
module Punctuation {
  import opened Text

  /** `_PUNCT_SPACING_RE.sub(" ", text)` */
  function CollapseSpaces(s: string): string
    decreases |s|
  {
    if s == "" then ""
    else if IsSpace(s[0]) then " " + CollapseSpaces(TrimLeft(s))
    else [s[0]] + CollapseSpaces(s[1..])
  }

  const DOTS: set<char> := {'.'}
  const MARKS: set<char> := {',', ';', ':', '!', '?'}

  /** Runs of one repeated character of `marks` become a single character: the
      replacement made by both `\.{2,}` and `([,;:!?])\1+`. */
  function Dedupe(s: string, marks: set<char>): string {
    if s == "" then ""
    else if |s| >= 2 && s[0] == s[1] && s[0] in marks then Dedupe(s[1..], marks)
    else [s[0]] + Dedupe(s[1..], marks)
  }

  /** End of the longest `\s*\n+` at the front of `s`, or 0 when there is none. */
  function LineBreakEnd(s: string, i: nat, best: nat): (r: nat)
    requires best <= i <= |s|
    ensures best <= r <= |s|
    decreases |s| - i
  {
    if i == |s| || !IsSpace(s[i]) then best
    else LineBreakEnd(s, i + 1, if s[i] == '\n' then i + 1 else best)
  }

  /** `_LINEBREAK_AFTER_PUNCT_RE.sub(r"\1 ", text)` */
  function JoinLines(s: string): string
    decreases |s|
  {
    if s == "" then ""
    else
      var end := LineBreakEnd(s[1..], 0, 0);
      if s[0] in {',', ';', ':'} && end > 0 then [s[0]] + " " + JoinLines(s[1 + end..])
      else [s[0]] + JoinLines(s[1..])
  }

  function CleanPunctuation(text: string): string {
    Strip(JoinLines(Dedupe(Dedupe(CollapseSpaces(text), DOTS), MARKS)))
  }

  /** `expand` stands for the date and number expansion, about which nothing is assumed. */
  function PreprocessForTts(text: string, expand: string -> string): string {
    CleanPunctuation(expand(text))
  }

  // ---------------------------------------------------------------- normal form

  predicate OnlyPlainSpaces(s: string) {
    forall i | 0 <= i < |s| :: IsSpace(s[i]) ==> s[i] == ' '
  }

  /** No character of `marks` stands next to itself. */
  predicate NoRepeat(s: string, marks: set<char>) {
    forall i | 0 <= i < |s| - 1 :: s[i] in marks ==> s[i] != s[i + 1]
  }

  predicate IsNormal(s: string) {
    OnlyPlainSpaces(s) && NoRepeat(s, {' ', '.', ',', ';', ':', '!', '?'}) && Stripped(s)
  }

  lemma NoRepeatSplit(s: string)
    ensures NoRepeat(s, {' ', '.', ',', ';', ':', '!', '?'})
            <==> NoRepeat(s, {' '}) && NoRepeat(s, DOTS) && NoRepeat(s, MARKS)
  { }

  lemma CollapsedNext(c: char, t: string)
    requires OnlyPlainSpaces(t) && NoRepeat(t, {' '})
    requires (IsSpace(c) ==> c == ' ') && (c == ' ' && t != "" ==> t[0] != ' ')
    ensures OnlyPlainSpaces([c] + t) && NoRepeat([c] + t, {' '})
  { }

  lemma {:induction false} CollapseSpacesSpec(s: string)
    ensures OnlyPlainSpaces(CollapseSpaces(s)) && NoRepeat(CollapseSpaces(s), {' '})
    ensures s != "" ==> CollapseSpaces(s) != "" && CollapseSpaces(s)[0] == if IsSpace(s[0]) then ' ' else s[0]
    decreases |s|
  {
    if s != "" {
      var tail := if IsSpace(s[0]) then TrimLeft(s) else s[1..];
      TrimLeftSpec(s);
      CollapseSpacesSpec(tail);
      CollapsedNext(if IsSpace(s[0]) then ' ' else s[0], CollapseSpaces(tail));
      hide OnlyPlainSpaces, NoRepeat, IsSpace;
    }
  }

  lemma {:induction false} CollapseSpacesIdentity(s: string)
    requires OnlyPlainSpaces(s) && NoRepeat(s, {' '})
    ensures CollapseSpaces(s) == s
    decreases |s|
  {
    if s != "" {
      if IsSpace(s[0]) {
        assert TrimLeft(s) == s[1..];
      }
      CollapseSpacesIdentity(s[1..]);
    }
  }

  lemma {:induction false} DedupeSpec(s: string, marks: set<char>)
    ensures NoRepeat(Dedupe(s, marks), marks)
    ensures s != "" ==> Dedupe(s, marks) != "" && Dedupe(s, marks)[0] == s[0]
  {
    if s != "" {
      DedupeSpec(s[1..], marks);
    }
  }

  lemma {:induction false} DedupeIdentity(s: string, marks: set<char>)
    requires NoRepeat(s, marks)
    ensures Dedupe(s, marks) == s
  {
    if s != "" {
      DedupeIdentity(s[1..], marks);
    }
  }

  /** Removing duplicates of one kind never creates a repeat of another kind. */
  lemma {:induction false} DedupeKeeps(s: string, marks: set<char>, others: set<char>)
    requires NoRepeat(s, others) && OnlyPlainSpaces(s)
    ensures NoRepeat(Dedupe(s, marks), others) && OnlyPlainSpaces(Dedupe(s, marks))
  {
    if s != "" {
      DedupeKeeps(s[1..], marks, others);
      DedupeSpec(s[1..], marks);
      if |s| >= 2 {
        assert s[0] in others ==> s[0] != s[1];
      }
    }
  }

  lemma {:induction false} JoinLinesIdentity(s: string)
    requires OnlyPlainSpaces(s)
    ensures JoinLines(s) == s
  {
    if s != "" {
      NoLineBreak(s[1..], 0);
      JoinLinesIdentity(s[1..]);
    }
  }

  lemma {:induction false} NoLineBreak(s: string, i: nat)
    requires i <= |s| && OnlyPlainSpaces(s)
    ensures LineBreakEnd(s, i, 0) == 0
    decreases |s| - i
  {
    if i < |s| && IsSpace(s[i]) {
      NoLineBreak(s, i + 1);
    }
  }

  /** A newline comes before anything but whitespace. */
  ghost predicate BreakAhead(s: string) {
    exists j :: 0 <= j < |s| && s[j] == '\n' && forall k | 0 <= k <= j :: IsSpace(s[k])
  }

  lemma BreakAheadStep(s: string)
    requires s != ""
    ensures BreakAhead(s) <==> IsSpace(s[0]) && (s[0] == '\n' || BreakAhead(s[1..]))
  {
    if j :| 0 <= j < |s| && s[j] == '\n' && forall k | 0 <= k <= j :: IsSpace(s[k]) {
      if j > 0 {
        assert s[1..][j - 1] == '\n' && forall k | 0 <= k <= j - 1 :: IsSpace(s[1..][k]);
      }
    }
    if IsSpace(s[0]) && s[0] != '\n' && BreakAhead(s[1..]) {
      var j :| 0 <= j < |s[1..]| && s[1..][j] == '\n' && forall k | 0 <= k <= j :: IsSpace(s[1..][k]);
      assert s[j + 1] == '\n' && forall k | 1 <= k <= j + 1 :: IsSpace(s[k]) by {
        assert forall k | 1 <= k <= j + 1 :: s[k] == s[1..][k - 1];
      }
    }
  }

  /** The cut goes past the last newline ahead, and is there exactly when there is one. */
  lemma {:induction false} LineBreakEndSpec(s: string, i: nat, best: nat)
    requires best <= i <= |s|
    ensures !BreakAhead(s[i..]) ==> LineBreakEnd(s, i, best) == best
    ensures BreakAhead(s[i..]) ==> LineBreakEnd(s, i, best) > i && !BreakAhead(s[LineBreakEnd(s, i, best)..])
    decreases |s| - i
  {
    if i < |s| {
      BreakAheadStep(s[i..]);
      assert s[i..][1..] == s[i + 1..];
      hide BreakAhead;
      if IsSpace(s[i]) {
        LineBreakEndSpec(s, i + 1, if s[i] == '\n' then i + 1 else best);
      }
    }
  }

  lemma {:induction false} JoinLinesAhead(s: string)
    ensures BreakAhead(JoinLines(s)) <==> BreakAhead(s)
    decreases |s|
  {
    if s != "" {
      BreakAheadStep(s);
      BreakAheadStep(JoinLines(s));
      hide BreakAhead;
      if IsSpace(s[0]) {
        assert JoinLines(s)[1..] == JoinLines(s[1..]);
        JoinLinesAhead(s[1..]);
      }
    }
  }

  ghost predicate NoMarkBeforeBreak(s: string) {
    forall i | 0 <= i < |s| && s[i] in {',', ';', ':'} :: !BreakAhead(s[i + 1..])
  }

  lemma MarkBeforeText(c: char, s: string)
    requires NoMarkBeforeBreak(s) && (c in {',', ';', ':'} ==> !BreakAhead(s))
    ensures NoMarkBeforeBreak([c] + s)
  {
    hide BreakAhead;
    assert ([c] + s)[1..] == s;
    assert forall i | 1 <= i <= |s| :: ([c] + s)[i + 1..] == s[i..];
  }

  lemma SpaceAhead(s: string)
    ensures BreakAhead(" " + s) <==> BreakAhead(s)
  {
    BreakAheadStep(" " + s);
    assert (" " + s)[1..] == s;
  }

  lemma CutEnd(t: string)
    ensures var end := LineBreakEnd(t, 0, 0);
      !BreakAhead(t[end..]) && (end > 0 <==> BreakAhead(t)) && (end == 0 ==> t[end..] == t)
  {
    LineBreakEndSpec(t, 0, 0);
    assert t[0..] == t;
  }

  lemma JoinLinesUnfold(s: string)
    requires s != ""
    ensures var end := LineBreakEnd(s[1..], 0, 0);
      JoinLines(s) == if s[0] in {',', ';', ':'} && end > 0 then [s[0]] + " " + JoinLines(s[1 + end..])
                      else [s[0]] + JoinLines(s[1..])
  { }

  lemma Shift(s: string, end: nat)
    requires s != "" && end <= |s| - 1
    ensures s[1..][end..] == s[1 + end..]
  { }

  lemma Regroup(a: string, b: string, c: string)
    ensures (a + b) + c == a + (b + c)
  { }

  /** What joining lines does next: cut a line break after a mark, or copy a character. */
  lemma JoinLinesNext(s: string) returns (rest: string)
    requires s != ""
    ensures |rest| < |s| && !(s[0] in {',', ';', ':'} && BreakAhead(rest))
    ensures JoinLines(s) == [s[0]] + (" " + JoinLines(rest)) || JoinLines(s) == [s[0]] + JoinLines(rest)
  {
    hide *;
    var end := LineBreakEnd(s[1..], 0, 0);
    CutEnd(s[1..]);
    JoinLinesUnfold(s);
    Shift(s, end);
    rest := if s[0] in {',', ';', ':'} && end > 0 then s[1 + end..] else s[1..];
    Regroup([s[0]], " ", JoinLines(rest));
  }

  lemma NothingMarked()
    ensures NoMarkBeforeBreak(JoinLines(""))
  { }

  /** No comma, semicolon or colon is left before a line break. */
  lemma {:induction false} JoinLinesSpec(s: string)
    ensures NoMarkBeforeBreak(JoinLines(s))
    decreases |s|
  {
    hide *;
    if s == "" {
      NothingMarked();
    } else {
      var rest := JoinLinesNext(s);
      var joined := JoinLines(rest);
      JoinLinesSpec(rest);
      JoinLinesAhead(rest);
      SpaceAhead(joined);
      MarkBeforeText(s[0], joined);
      MarkBeforeText(' ', joined);
      MarkBeforeText(s[0], " " + joined);
      assert [' '] + joined == " " + joined;
    }
  }

  lemma StripIsSlice(s: string) returns (lo: nat, hi: nat)
    ensures lo <= hi <= |s| && Strip(s) == s[lo..hi]
  {
    TrimLeftSpec(s);
    lo := |s| - |TrimLeft(s)|;
    hi := lo + |Strip(s)|;
  }

  lemma BeforeStrip(text: string) returns (c: string)
    ensures CleanPunctuation(text) == Strip(c)
    ensures OnlyPlainSpaces(c) && NoRepeat(c, {' '}) && NoRepeat(c, DOTS) && NoRepeat(c, MARKS)
  {
    var a := CollapseSpaces(text);
    var b := Dedupe(a, DOTS);
    c := Dedupe(b, MARKS);
    CollapseSpacesSpec(text);
    DedupeKeeps(a, DOTS, {' '});
    DedupeSpec(a, DOTS);
    DedupeKeeps(b, MARKS, {' '});
    DedupeKeeps(b, MARKS, DOTS);
    DedupeSpec(b, MARKS);
    JoinLinesIdentity(c);
  }

  lemma SliceKeeps(c: string, lo: nat, hi: nat, marks: set<char>)
    requires lo <= hi <= |c| && NoRepeat(c, marks) && OnlyPlainSpaces(c)
    ensures NoRepeat(c[lo..hi], marks) && OnlyPlainSpaces(c[lo..hi])
  { }

  lemma NormalIsFixed(text: string)
    requires IsNormal(text)
    ensures CleanPunctuation(text) == text
  {
    NoRepeatSplit(text);
    CollapseSpacesIdentity(text);
    DedupeIdentity(text, DOTS);
    DedupeIdentity(text, MARKS);
    JoinLinesIdentity(text);
    StripSpec(text);
  }

  /** `clean_punctuation` lands in the normal form and fixes exactly the normal texts. */
  lemma CleanIsNormal(text: string)
    ensures IsNormal(CleanPunctuation(text))
    ensures IsNormal(text) <==> CleanPunctuation(text) == text
  {
    var c := BeforeStrip(text);
    StripSpec(c);
    var lo, hi := StripIsSlice(c);
    SliceKeeps(c, lo, hi, {' '});
    SliceKeeps(c, lo, hi, DOTS);
    SliceKeeps(c, lo, hi, MARKS);
    NoRepeatSplit(c[lo..hi]);
    if IsNormal(text) {
      NormalIsFixed(text);
    }
  }

  /** Idempotence, and no newline survives. */
  lemma CleanIsStable(text: string)
    ensures CleanPunctuation(CleanPunctuation(text)) == CleanPunctuation(text)
    ensures '\n' !in CleanPunctuation(text)
  {
    CleanIsNormal(text);
    CleanIsNormal(CleanPunctuation(text));
  }

  // ---------------------------------------------------------------- content

  /** The text read without whitespace and with each run of one repeated mark, spaces
      between its members included, counted once. `last` is the character read before. */
  function Skeleton(s: string, last: char): string {
    if s == "" then ""
    else if IsSpace(s[0]) || (s[0] == last && s[0] in {'.', ',', ';', ':', '!', '?'}) then Skeleton(s[1..], last)
    else [s[0]] + Skeleton(s[1..], s[0])
  }

  lemma {:induction false} TrimLeftSkeleton(s: string, last: char)
    ensures Skeleton(TrimLeft(s), last) == Skeleton(s, last)
  {
    if s != "" && IsSpace(s[0]) {
      TrimLeftSkeleton(s[1..], last);
    }
  }

  lemma {:induction false} TrimRightSkeleton(s: string, t: string, last: char)
    requires Blank(t)
    ensures Skeleton(s + t, last) == Skeleton(s, last)
  {
    if s != "" {
      assert (s + t)[1..] == s[1..] + t;
      TrimRightSkeleton(s[1..], t, if IsSpace(s[0]) then last else s[0]);
    } else if t != "" {
      assert s + t == t;
      assert IsSpace(t[0]);
      assert t[1..] == "" + t[1..];
      assert Blank(t[1..]);
      TrimRightSkeleton("", t[1..], last);
    }
  }

  lemma {:induction false} CollapseSkeleton(s: string, last: char)
    ensures Skeleton(CollapseSpaces(s), last) == Skeleton(s, last)
    decreases |s|
  {
    if s != "" {
      if IsSpace(s[0]) {
        TrimLeftSkeleton(s, last);
        CollapseSkeleton(TrimLeft(s), last);
        assert CollapseSpaces(s)[1..] == CollapseSpaces(TrimLeft(s));
      } else {
        assert CollapseSpaces(s)[1..] == CollapseSpaces(s[1..]);
        CollapseSkeleton(s[1..], s[0]);
      }
    }
  }

  lemma {:induction false} DedupeSkeleton(s: string, marks: set<char>, last: char)
    requires marks <= DOTS + MARKS
    ensures Skeleton(Dedupe(s, marks), last) == Skeleton(s, last)
  {
    if s != "" {
      if |s| >= 2 && s[0] == s[1] && s[0] in marks {
        DedupeSkeleton(s[1..], marks, last);
        assert s[1..][1..] == s[2..];
        assert !IsSpace(s[0]);
      } else {
        assert Dedupe(s, marks)[1..] == Dedupe(s[1..], marks);
        DedupeSkeleton(s[1..], marks, if IsSpace(s[0]) then last else s[0]);
      }
    }
  }

  /** Apart from whitespace and repeated marks the cleaned text reads exactly like the original. */
  lemma CleanKeepsSkeleton(text: string, last: char)
    ensures Skeleton(CleanPunctuation(text), last) == Skeleton(text, last)
  {
    var a := CollapseSpaces(text);
    var b := Dedupe(a, DOTS);
    var c := Dedupe(b, MARKS);
    CollapseSkeleton(text, last);
    DedupeSkeleton(a, DOTS, last);
    DedupeSkeleton(b, MARKS, last);
    CollapseSpacesSpec(text);
    DedupeKeeps(a, DOTS, {' '});
    DedupeKeeps(b, MARKS, {' '});
    JoinLinesIdentity(c);
    TrimLeftSkeleton(c, last);
    TrimRightBlank(TrimLeft(c));
    var t := TrimLeft(c);
    assert t == TrimRight(t) + t[|TrimRight(t)|..];
    TrimRightSkeleton(TrimRight(t), t[|TrimRight(t)|..], last);
  }

  lemma {:induction false} TrimRightBlank(s: string)
    ensures Blank(s[|TrimRight(s)|..])
  {
    if s != "" && IsSpace(s[|s| - 1]) {
      var front := s[..|s| - 1];
      TrimRightBlank(front);
      var n := |TrimRight(s)|;
      assert s[n..] == front[n..] + [s[|s| - 1]];
    }
  }

  // ---------------------------------------------------------------- words

  predicate Solid(w: string) {
    w != "" && forall i | 0 <= i < |w| :: !IsSpace(w[i])
  }

  /** The longest front of `s` without whitespace. */
  function Word(s: string): (w: string)
    ensures |w| <= |s| && w == s[..|w|]
    ensures forall i | 0 <= i < |w| :: !IsSpace(w[i])
    ensures s != "" && !IsSpace(s[0]) ==> w != ""
    ensures |w| < |s| ==> IsSpace(s[|w|])
  {
    if s == "" || IsSpace(s[0]) then "" else [s[0]] + Word(s[1..])
  }

  /** What stands between whitespace, in order. */
  function Words(s: string): seq<string>
    decreases |s|
  {
    if s == "" then [] else if IsSpace(s[0]) then Words(s[1..]) else [Word(s)] + Words(s[|Word(s)|..])
  }

  predicate StartsBlank(s: string) {
    s == "" || IsSpace(s[0])
  }

  lemma {:induction false} WordOf(w: string, rest: string)
    requires (forall i | 0 <= i < |w| :: !IsSpace(w[i])) && StartsBlank(rest)
    ensures Word(w + rest) == w
  {
    if w == "" {
      assert w + rest == rest;
    } else {
      assert (w + rest)[1..] == w[1..] + rest;
      WordOf(w[1..], rest);
    }
  }

  lemma WordsCons(w: string, rest: string)
    requires Solid(w) && StartsBlank(rest)
    ensures Words(w + rest) == [w] + Words(rest)
  {
    WordOf(w, rest);
    assert (w + rest)[|w|..] == rest;
  }

  lemma {:induction false} TrimLeftWords(s: string)
    ensures Words(TrimLeft(s)) == Words(s)
  {
    if s != "" && IsSpace(s[0]) {
      TrimLeftWords(s[1..]);
    }
  }

  lemma {:induction false} BlankHasNoWords(s: string)
    requires Blank(s)
    ensures Words(s) == []
  {
    if s != "" {
      assert Blank(s[1..]) by {
        assert forall i | 0 <= i < |s[1..]| :: s[1..][i] == s[i + 1];
      }
      BlankHasNoWords(s[1..]);
    }
  }

  lemma {:induction false} TrailingBlankWords(s: string, t: string)
    requires Blank(t)
    ensures Words(s + t) == Words(s)
    decreases |s|
  {
    if s == "" {
      assert s + t == t;
      BlankHasNoWords(t);
    } else if IsSpace(s[0]) {
      assert (s + t)[1..] == s[1..] + t;
      TrailingBlankWords(s[1..], t);
    } else {
      var w := Word(s);
      var rest := s[|w|..];
      assert s == w + rest && s + t == w + (rest + t);
      TrailingBlankWords(rest, t);
      WordsCons(w, rest);
      WordsCons(w, rest + t);
    }
  }

  lemma StripWords(s: string)
    ensures Words(Strip(s)) == Words(s)
  {
    var t := TrimLeft(s);
    TrimLeftWords(s);
    TrimRightBlank(t);
    assert t == TrimRight(t) + t[|TrimRight(t)|..];
    TrailingBlankWords(TrimRight(t), t[|TrimRight(t)|..]);
  }

  lemma {:induction false} CollapseSolid(w: string, rest: string)
    requires forall i | 0 <= i < |w| :: !IsSpace(w[i])
    ensures CollapseSpaces(w + rest) == w + CollapseSpaces(rest)
  {
    if w == "" {
      assert w + rest == rest;
    } else {
      assert (w + rest)[1..] == w[1..] + rest;
      CollapseSolid(w[1..], rest);
    }
  }

  lemma {:induction false} CollapseWords(s: string)
    ensures Words(CollapseSpaces(s)) == Words(s)
    decreases |s|
  {
    if s == "" {
    } else if IsSpace(s[0]) {
      CollapseWords(TrimLeft(s));
      TrimLeftWords(s);
      assert CollapseSpaces(s)[1..] == CollapseSpaces(TrimLeft(s));
    } else {
      var w := Word(s);
      var rest := s[|w|..];
      assert s == w + rest;
      CollapseSolid(w, rest);
      CollapseWords(rest);
      CollapseSpacesSpec(rest);
      WordsCons(w, CollapseSpaces(rest));
    }
  }

  lemma {:induction false} DedupeConcat(a: string, b: string, marks: set<char>)
    requires a == "" || b == "" || a[|a| - 1] != b[0]
    ensures Dedupe(a + b, marks) == Dedupe(a, marks) + Dedupe(b, marks)
  {
    if a == "" {
      assert a + b == b;
    } else {
      assert (a + b)[1..] == a[1..] + b;
      if |a| == 1 {
        assert a[1..] == "";
      }
      DedupeConcat(a[1..], b, marks);
    }
  }

  lemma {:induction false} DedupeSolid(w: string, marks: set<char>)
    requires Solid(w)
    ensures Solid(Dedupe(w, marks))
  {
    if |w| > 1 {
      assert Solid(w[1..]);
      DedupeSolid(w[1..], marks);
    } else {
      assert w[1..] == "";
    }
  }

  function DedupeEach(ws: seq<string>, marks: set<char>): seq<string> {
    if ws == [] then [] else [Dedupe(ws[0], marks)] + DedupeEach(ws[1..], marks)
  }

  lemma {:induction false} DedupeWords(s: string, marks: set<char>)
    requires forall c | c in marks :: !IsSpace(c)
    ensures Words(Dedupe(s, marks)) == DedupeEach(Words(s), marks)
    decreases |s|
  {
    if s == "" {
    } else if IsSpace(s[0]) {
      DedupeWords(s[1..], marks);
      assert Dedupe(s, marks)[1..] == Dedupe(s[1..], marks);
    } else {
      var w := Word(s);
      var rest := s[|w|..];
      assert s == w + rest;
      DedupeConcat(w, rest, marks);
      DedupeWords(rest, marks);
      DedupeSolid(w, marks);
      DedupeSpec(rest, marks);
      WordsCons(Dedupe(w, marks), Dedupe(rest, marks));
      assert ([w] + Words(rest))[1..] == Words(rest);
    }
  }

  /** Two word lists of one length, reading the same word by word up to repeated marks. */
  ghost predicate SameWords(a: seq<string>, b: seq<string>) {
    |a| == |b| && forall i | 0 <= i < |a| :: Skeleton(a[i], ' ') == Skeleton(b[i], ' ')
  }

  lemma {:induction false} DedupeEachSame(ws: seq<string>, marks: set<char>)
    requires marks <= DOTS + MARKS
    ensures SameWords(DedupeEach(ws, marks), ws)
  {
    if ws != [] {
      DedupeSkeleton(ws[0], marks, ' ');
      DedupeEachSame(ws[1..], marks);
    }
  }

  lemma SameWordsTrans(a: seq<string>, b: seq<string>, c: seq<string>)
    requires SameWords(a, b) && SameWords(b, c)
    ensures SameWords(a, c)
  { }

  lemma DedupeKeepsWords(s: string, marks: set<char>)
    requires marks == DOTS || marks == MARKS
    ensures SameWords(Words(Dedupe(s, marks)), Words(s))
  {
    DedupeWords(s, marks);
    DedupeEachSame(Words(s), marks);
  }

  lemma DedupedIsPlain(text: string)
    ensures OnlyPlainSpaces(Dedupe(Dedupe(CollapseSpaces(text), DOTS), MARKS))
  {
    CollapseSpacesSpec(text);
    DedupeKeeps(CollapseSpaces(text), DOTS, {' '});
    DedupeKeeps(Dedupe(CollapseSpaces(text), DOTS), MARKS, {' '});
  }

  /** Cleaning keeps the words: as many as before, in the same order, none joined to its
      neighbour or cut, and each the same up to repeated marks. */
  lemma CleanKeepsWords(text: string)
    ensures SameWords(Words(CleanPunctuation(text)), Words(text))
  {
    hide Words, SameWords, CollapseSpaces, Dedupe, JoinLines, Strip, OnlyPlainSpaces, DOTS, MARKS;
    var a := CollapseSpaces(text);
    var b := Dedupe(a, DOTS);
    var c := Dedupe(b, MARKS);
    CollapseWords(text);
    DedupeKeepsWords(a, DOTS);
    DedupeKeepsWords(b, MARKS);
    SameWordsTrans(Words(c), Words(b), Words(a));
    DedupedIsPlain(text);
    JoinLinesIdentity(c);
    StripWords(c);
  }

  /** What the service synthesises is the expanded input, word by word, in normal form. */
  lemma PreprocessKeepsWords(input: string, expand: string -> string)
    ensures SameWords(Words(PreprocessForTts(input, expand)), Words(expand(input)))
    ensures IsNormal(PreprocessForTts(input, expand))
  {
    CleanKeepsWords(expand(input));
    hide Words, SameWords, CleanPunctuation, IsNormal;
    CleanIsNormal(expand(input));
  }
}
