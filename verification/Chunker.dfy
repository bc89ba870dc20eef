/** The greedy packing loop of `split_text_semantic`. */
module Chunker {
  import opened Text
  import opened Sentences

  /** One step of the packing: a group of whole sentences that becomes a single
      chunk, or a sentence longer than the limit that is sliced on its own. */
  datatype Piece = Group(sentences: seq<string>) | Oversized(sentence: string)

  /** Upper bound on sentences per group: any limit below one behaves like one. */
  function GroupCap(maxSentences: int): nat {
    if maxSentences < 1 then 1 else maxSentences
  }

  /** `sentence[i : i + max_chars]` for `i` in `range(0, len(sentence), max_chars)` */
  function Slices(s: string, maxChars: nat): seq<string>
    requires maxChars >= 1
  {
    if s == "" then [] else if |s| <= maxChars then [s] else [s[..maxChars]] + Slices(s[maxChars..], maxChars)
  }

  function RenderPiece(p: Piece, maxChars: nat): seq<string>
    requires maxChars >= 1
  {
    match p
    case Group(g) => [Strip(Join(g))]
    case Oversized(s) => StripAll(Slices(s, maxChars))
  }

  function Render(plan: seq<Piece>, maxChars: nat): seq<string>
    requires maxChars >= 1
  {
    if plan == [] then [] else RenderPiece(plan[0], maxChars) + Render(plan[1..], maxChars)
  }

  function Flush(current: seq<string>): seq<Piece> {
    if current == [] then [] else [Group(current)]
  }

  predicate MustFlush(current: seq<string>, s: string, maxChars: nat, maxSentences: int) {
    current != [] && (|current| >= maxSentences || |Strip(Join(current + [s]))| > maxChars)
  }

  /** What the loop emits from accumulator `current` and the sentences still to come. */
  function Plan(current: seq<string>, rest: seq<string>, maxChars: nat, maxSentences: int): seq<Piece>
    decreases |rest|
  {
    if rest == [] then Flush(current)
    else if |rest[0]| > maxChars then
      Flush(current) + [Oversized(rest[0])] + Plan([], rest[1..], maxChars, maxSentences)
    else if MustFlush(current, rest[0], maxChars, maxSentences) then
      [Group(current)] + Plan([rest[0]], rest[1..], maxChars, maxSentences)
    else Plan(current + [rest[0]], rest[1..], maxChars, maxSentences)
  }

  function PlanOf(text: string, maxChars: nat, maxSentences: int): seq<Piece> {
    Plan([], SentencesOf(text), maxChars, maxSentences)
  }

  function Chunks(text: string, maxChars: nat, maxSentences: int): seq<string>
    requires maxChars >= 1
  {
    Render(PlanOf(text, maxChars, maxSentences), maxChars)
  }

  lemma {:induction false} RenderConcat(a: seq<Piece>, b: seq<Piece>, maxChars: nat)
    requires maxChars >= 1
    ensures Render(a + b, maxChars) == Render(a, maxChars) + Render(b, maxChars)
  {
    if a == [] {
      assert a + b == b;
    } else {
      assert (a + b)[1..] == a[1..] + b;
      RenderConcat(a[1..], b, maxChars);
    }
  }

  lemma RenderCons(p: Piece, rest: seq<Piece>, maxChars: nat)
    requires maxChars >= 1
    ensures Render([p] + rest, maxChars) == RenderPiece(p, maxChars) + Render(rest, maxChars)
  {
    assert ([p] + rest)[1..] == rest;
  }

  /** The chunks the loop has yet to append from a given accumulator. */
  function Pending(current: seq<string>, rest: seq<string>, maxChars: nat, maxSentences: int): seq<string>
    requires maxChars >= 1
  {
    Render(Plan(current, rest, maxChars, maxSentences), maxChars)
  }

  function FlushChunks(current: seq<string>): seq<string> {
    if current == [] then [] else [Strip(Join(current))]
  }

  lemma FlushRendered(current: seq<string>, after: seq<Piece>, maxChars: nat)
    requires maxChars >= 1
    ensures Render(Flush(current), maxChars) == FlushChunks(current)
    ensures Render(Flush(current) + after, maxChars) == FlushChunks(current) + Render(after, maxChars)
  {
    if current != [] {
      RenderCons(Group(current), [], maxChars);
      assert [Group(current)] + [] == [Group(current)];
    }
    RenderConcat(Flush(current), after, maxChars);
  }

  lemma PendingOversized(current: seq<string>, rest: seq<string>, maxChars: nat, maxSentences: int)
    requires maxChars >= 1 && rest != [] && |rest[0]| > maxChars
    ensures Pending(current, rest, maxChars, maxSentences)
         == FlushChunks(current)
            + (StripAll(Slices(rest[0], maxChars)) + Pending([], rest[1..], maxChars, maxSentences))
  {
    var after := Plan([], rest[1..], maxChars, maxSentences);
    assert Flush(current) + [Oversized(rest[0])] + after == Flush(current) + ([Oversized(rest[0])] + after);
    FlushRendered(current, [Oversized(rest[0])] + after, maxChars);
    RenderCons(Oversized(rest[0]), after, maxChars);
  }

  lemma PendingFull(current: seq<string>, rest: seq<string>, maxChars: nat, maxSentences: int)
    requires maxChars >= 1 && rest != [] && |rest[0]| <= maxChars
    requires MustFlush(current, rest[0], maxChars, maxSentences)
    ensures Pending(current, rest, maxChars, maxSentences)
         == FlushChunks(current) + Pending([rest[0]], rest[1..], maxChars, maxSentences)
  {
    FlushRendered(current, Plan([rest[0]], rest[1..], maxChars, maxSentences), maxChars);
  }

  lemma PendingGrows(current: seq<string>, rest: seq<string>, maxChars: nat, maxSentences: int)
    requires maxChars >= 1 && rest != [] && |rest[0]| <= maxChars
    requires !MustFlush(current, rest[0], maxChars, maxSentences)
    ensures Pending(current, rest, maxChars, maxSentences)
         == Pending(current + [rest[0]], rest[1..], maxChars, maxSentences)
  { }

  lemma Regroup<T>(a: seq<T>, b: seq<T>, c: seq<T>)
    ensures a + (b + c) == (a + b) + c
  { }

  /** The packing loop over the sentence list, against `Plan`. */
  method Pack(sentences: seq<string>, maxChars: nat, maxSentences: int) returns (chunks: seq<string>)
    requires maxChars >= 1
    ensures chunks == Pending([], sentences, maxChars, maxSentences)
  {
    ghost var goal := Pending([], sentences, maxChars, maxSentences);
    ghost var rest := sentences;
    chunks := [];
    var current: seq<string> := [];
    var i := 0;
    while i < |sentences|
      invariant 0 <= i <= |sentences| && rest == sentences[i..]
      invariant goal == chunks + Pending(current, rest, maxChars, maxSentences)
    {
      var s := sentences[i];
      assert rest[0] == s;
      if |s| > maxChars {
        PendingOversized(current, rest, maxChars, maxSentences);
        Regroup(chunks, FlushChunks(current),
                StripAll(Slices(s, maxChars)) + Pending([], rest[1..], maxChars, maxSentences));
        if current != [] {
          chunks := chunks + [Strip(Join(current))];
        }
        current := [];
        Regroup(chunks, StripAll(Slices(s, maxChars)), Pending([], rest[1..], maxChars, maxSentences));
        chunks := chunks + StripAll(Slices(s, maxChars));
      } else if MustFlush(current, s, maxChars, maxSentences) {
        PendingFull(current, rest, maxChars, maxSentences);
        Regroup(chunks, FlushChunks(current), Pending([s], rest[1..], maxChars, maxSentences));
        chunks := chunks + [Strip(Join(current))];
        current := [s];
      } else {
        PendingGrows(current, rest, maxChars, maxSentences);
        current := current + [s];
      }
      rest := rest[1..];
      i := i + 1;
    }
    FlushRendered(current, [], maxChars);
    if current != [] {
      chunks := chunks + [Strip(Join(current))];
    }
  }

  method SplitTextSemantic(text: string, maxChars: nat, maxSentences: int) returns (chunks: seq<string>)
    requires maxChars >= 1
    ensures chunks == Chunks(text, maxChars, maxSentences)
    ensures chunks == [] <==> Blank(text)
    ensures forall c | c in chunks :: c != "" && |c| <= maxChars
    ensures VisibleAll(chunks) == Visible(text)
  {
    ChunksSpec(text, maxChars, maxSentences);
    if Strip(text) == "" {
      return [];
    }
    chunks := Pack(SentencesOf(text), maxChars, maxSentences);
  }

  // ---------------------------------------------------------------- safety and content

  /** A piece the packing rule allows: a non-empty group within both limits, or one oversized sentence. */
  predicate ValidPiece(p: Piece, maxChars: nat, maxSentences: int) {
    match p
    case Group(g) => g != [] && |g| <= GroupCap(maxSentences) && |Join(g)| <= maxChars
    case Oversized(s) => |s| > maxChars
  }

  ghost predicate ValidLayout(plan: seq<Piece>, maxChars: nat, maxSentences: int) {
    forall i | 0 <= i < |plan| :: ValidPiece(plan[i], maxChars, maxSentences)
  }

  function Content(p: Piece): seq<string> {
    match p
    case Group(g) => g
    case Oversized(s) => [s]
  }

  function Flatten(plan: seq<Piece>): seq<string> {
    if plan == [] then [] else Content(plan[0]) + Flatten(plan[1..])
  }

  lemma {:induction false} FlattenConcat(a: seq<Piece>, b: seq<Piece>)
    ensures Flatten(a + b) == Flatten(a) + Flatten(b)
  {
    if a == [] {
      assert a + b == b;
    } else {
      assert (a + b)[1..] == a[1..] + b;
      FlattenConcat(a[1..], b);
    }
  }

  lemma TidyParts(current: seq<string>, s: string, tail: seq<string>)
    requires Tidy((current + [s]) + tail)
    ensures Tidy(current + [s]) && Tidy([s]) && Tidy(tail) && Tidy([s] + tail) && Tidy([] + tail)
  {
    var whole := (current + [s]) + tail;
    assert forall i | 0 <= i <= |current| :: (current + [s])[i] == whole[i];
    assert s == whole[|current|];
    assert forall i | 0 <= i < |tail| :: tail[i] == whole[|current| + 1 + i];
  }

  lemma FitsUnlessFlushed(current: seq<string>, s: string, maxChars: nat, maxSentences: int)
    requires Tidy(current + [s]) && |s| <= maxChars
    requires current == [] || ValidPiece(Group(current), maxChars, maxSentences)
    ensures MustFlush(current, s, maxChars, maxSentences)
       <==> !ValidPiece(Group(current + [s]), maxChars, maxSentences)
  {
    JoinStripped(current + [s]);
    StripSpec(Join(current + [s]));
    assert current == [] ==> current + [s] == [s];
  }

  /** Every piece the greedy loop emits is within the limits. */
  lemma {:induction false} PlanIsValid(current: seq<string>, rest: seq<string>, maxChars: nat, maxSentences: int)
    requires Tidy(current + rest)
    requires current == [] || ValidPiece(Group(current), maxChars, maxSentences)
    ensures ValidLayout(Plan(current, rest, maxChars, maxSentences), maxChars, maxSentences)
    decreases |rest|
  {
    if rest != [] {
      var s, tail := rest[0], rest[1..];
      assert current + rest == (current + [s]) + tail;
      TidyParts(current, s, tail);
      if |s| > maxChars {
        PlanIsValid([], tail, maxChars, maxSentences);
      } else {
        FitsUnlessFlushed(current, s, maxChars, maxSentences);
        if MustFlush(current, s, maxChars, maxSentences) {
          PlanIsValid([s], tail, maxChars, maxSentences);
        } else {
          PlanIsValid(current + [s], tail, maxChars, maxSentences);
        }
      }
    }
  }

  lemma OversizedFlattens(current: seq<string>, s: string, after: seq<Piece>)
    ensures Flatten(Flush(current) + [Oversized(s)] + after) == (current + [s]) + Flatten(after)
  {
    FlattenConcat(Flush(current) + [Oversized(s)], after);
    FlattenConcat(Flush(current), [Oversized(s)]);
    FlattenFlush(current);
    assert Flatten([Oversized(s)]) == [s];
  }

  /** What the greedy plan does with the next sentence. */
  lemma PlanNext(current: seq<string>, rest: seq<string>, maxChars: nat, maxSentences: int)
    requires rest != []
    ensures var s, tail, plan := rest[0], rest[1..], Plan(current, rest, maxChars, maxSentences);
      if |s| > maxChars then plan == Flush(current) + [Oversized(s)] + Plan([], tail, maxChars, maxSentences)
      else if MustFlush(current, s, maxChars, maxSentences)
      then plan == [Group(current)] + Plan([s], tail, maxChars, maxSentences)
      else plan == Plan(current + [s], tail, maxChars, maxSentences)
  { }

  lemma NextShifts(current: seq<string>, rest: seq<string>)
    requires rest != []
    ensures (current + [rest[0]]) + rest[1..] == current + rest
    ensures current + ([rest[0]] + rest[1..]) == current + rest
    ensures [] + rest[1..] == rest[1..]
  { }

  /** The greedy loop neither drops, duplicates nor reorders a sentence. */
  lemma {:induction false} PlanFlattens(current: seq<string>, rest: seq<string>, maxChars: nat, maxSentences: int)
    ensures Flatten(Plan(current, rest, maxChars, maxSentences)) == current + rest
    decreases |rest|
  {
    if rest == [] {
      FlattenFlush(current);
    } else {
      hide *;
      var s, tail := rest[0], rest[1..];
      PlanNext(current, rest, maxChars, maxSentences);
      NextShifts(current, rest);
      if |s| > maxChars {
        PlanFlattens([], tail, maxChars, maxSentences);
        OversizedFlattens(current, s, Plan([], tail, maxChars, maxSentences));
      } else if MustFlush(current, s, maxChars, maxSentences) {
        PlanFlattens([s], tail, maxChars, maxSentences);
        FlattenCons(Group(current), Plan([s], tail, maxChars, maxSentences));
        GroupContent(current);
      } else {
        PlanFlattens(current + [s], tail, maxChars, maxSentences);
      }
    }
  }

  lemma GroupContent(ss: seq<string>)
    ensures Content(Group(ss)) == ss
  { }

  lemma FlattenCons(p: Piece, rest: seq<Piece>)
    ensures Flatten([p] + rest) == Content(p) + Flatten(rest)
  {
    assert ([p] + rest)[1..] == rest;
  }

  lemma FlattenFlush(current: seq<string>)
    ensures Flatten(Flush(current)) == current
  { }

  lemma TidySplit(a: seq<string>, b: seq<string>)
    requires Tidy(a + b)
    ensures Tidy(a) && Tidy(b)
  {
    assert forall i | 0 <= i < |a| :: a[i] == (a + b)[i];
    assert forall i | 0 <= i < |b| :: b[i] == (a + b)[|a| + i];
  }

  lemma {:induction false} SlicesSpec(s: string, maxChars: nat)
    requires maxChars >= 1
    ensures VisibleAll(Slices(s, maxChars)) == Visible(s)
    ensures forall x | x in Slices(s, maxChars) :: |x| <= maxChars
  {
    if s != "" {
      if |s| > maxChars {
        SlicesSpec(s[maxChars..], maxChars);
        assert s == s[..maxChars] + s[maxChars..];
        VisibleConcat(s[..maxChars], s[maxChars..]);
        assert ([s[..maxChars]] + Slices(s[maxChars..], maxChars))[1..] == Slices(s[maxChars..], maxChars);
      }
    }
  }

  function Concat(ss: seq<string>): string {
    if ss == [] then "" else ss[0] + Concat(ss[1..])
  }

  /** Hard slicing cuts an oversized sentence into full-length slices and one remainder. */
  lemma {:induction false} SlicesCut(s: string, maxChars: nat)
    requires maxChars >= 1
    ensures Concat(Slices(s, maxChars)) == s
    ensures forall i | 0 <= i < |Slices(s, maxChars)| - 1 :: |Slices(s, maxChars)[i]| == maxChars
    ensures forall i | 0 <= i < |Slices(s, maxChars)| :: 1 <= |Slices(s, maxChars)[i]| <= maxChars
  {
    if |s| > maxChars {
      SlicesCut(s[maxChars..], maxChars);
      assert s == s[..maxChars] + s[maxChars..];
    } else if s != "" {
      assert [s][1..] == [];
    }
  }

  lemma {:induction false} StripAllShrinks(ss: seq<string>, n: nat)
    requires forall x | x in ss :: |x| <= n
    ensures forall x | x in StripAll(ss) :: |x| <= n
  {
    if ss != [] {
      assert ss[0] in ss;
      StripSpec(ss[0]);
      forall x | x in ss[1..] ensures x in ss { }
      StripAllShrinks(ss[1..], n);
    }
  }

  lemma RenderPieceSpec(p: Piece, maxChars: nat, maxSentences: int)
    requires maxChars >= 1 && ValidPiece(p, maxChars, maxSentences)
    requires Tidy(Content(p))
    ensures forall c | c in RenderPiece(p, maxChars) :: c != "" && |c| <= maxChars
    ensures VisibleAll(RenderPiece(p, maxChars)) == VisibleAll(Content(p))
    ensures p.Group? ==> RenderPiece(p, maxChars) == [Join(p.sentences)]
  {
    match p
    case Group(g) =>
      JoinStripped(g);
      StripSpec(Join(g));
      JoinVisible(g);
    case Oversized(s) =>
      var slices := Slices(s, maxChars);
      SlicesSpec(s, maxChars);
      StripAllSpec(slices);
      StripAllShrinks(slices, maxChars);
      assert VisibleAll([s]) == Visible(s) + VisibleAll([]);
  }

  lemma {:induction false} RenderSpec(plan: seq<Piece>, maxChars: nat, maxSentences: int)
    requires maxChars >= 1 && ValidLayout(plan, maxChars, maxSentences)
    requires Tidy(Flatten(plan))
    ensures forall c | c in Render(plan, maxChars) :: c != "" && |c| <= maxChars
    ensures VisibleAll(Render(plan, maxChars)) == VisibleAll(Flatten(plan))
  {
    if plan != [] {
      TidySplit(Content(plan[0]), Flatten(plan[1..]));
      RenderPieceSpec(plan[0], maxChars, maxSentences);
      RenderSpec(plan[1..], maxChars, maxSentences);
      VisibleAllConcat(RenderPiece(plan[0], maxChars), Render(plan[1..], maxChars));
      VisibleAllConcat(Content(plan[0]), Flatten(plan[1..]));
    }
  }

  lemma PlanOfSpec(text: string, maxChars: nat, maxSentences: int)
    ensures ValidLayout(PlanOf(text, maxChars, maxSentences), maxChars, maxSentences)
    ensures Flatten(PlanOf(text, maxChars, maxSentences)) == SentencesOf(text)
    ensures Tidy(SentencesOf(text))
  {
    var ss := SentencesOf(text);
    SentencesOfSpec(text);
    assert [] + ss == ss;
    PlanIsValid([], ss, maxChars, maxSentences);
    PlanFlattens([], ss, maxChars, maxSentences);
  }

  /** Chunker safety and content, for every text and every pair of limits. */
  lemma ChunksSpec(text: string, maxChars: nat, maxSentences: int)
    requires maxChars >= 1
    ensures var chunks := Chunks(text, maxChars, maxSentences);
      && (forall c | c in chunks :: c != "" && |c| <= maxChars)
      && VisibleAll(chunks) == Visible(text)
      && (chunks == [] <==> Blank(text))
  {
    PlanOfSpec(text, maxChars, maxSentences);
    SentencesOfSpec(text);
    RenderSpec(PlanOf(text, maxChars, maxSentences), maxChars, maxSentences);
    BlankIsInvisible(text);
  }

  /** The piece and offset at which the `i`-th sentence of a layout stands. */
  lemma {:induction false} Locate(plan: seq<Piece>, i: nat) returns (p: nat, offset: nat)
    requires i < |Flatten(plan)|
    ensures p < |plan| && offset < |Content(plan[p])|
    ensures Content(plan[p])[offset] == Flatten(plan)[i]
    ensures i == |Flatten(plan[..p])| + offset
  {
    var head, rest := Content(plan[0]), plan[1..];
    if i < |head| {
      p, offset := 0, i;
    } else {
      var q, o := Locate(rest, i - |head|);
      p, offset := q + 1, o;
      assert plan[..p] == [plan[0]] + rest[..q];
      FlattenCons(plan[0], rest[..q]);
    }
  }

  lemma RenderAround(plan: seq<Piece>, p: nat, maxChars: nat)
    requires maxChars >= 1 && p < |plan|
    ensures Render(plan, maxChars)
         == Render(plan[..p], maxChars) + (RenderPiece(plan[p], maxChars) + Render(plan[p + 1..], maxChars))
  {
    assert plan == plan[..p] + ([plan[p]] + plan[p + 1..]);
    RenderConcat(plan[..p], [plan[p]] + plan[p + 1..], maxChars);
    RenderCons(plan[p], plan[p + 1..], maxChars);
  }

  lemma {:induction false} TidyPiece(plan: seq<Piece>, p: nat)
    requires p < |plan| && Tidy(Flatten(plan))
    ensures Tidy(Content(plan[p]))
  {
    TidySplit(Content(plan[0]), Flatten(plan[1..]));
    if p > 0 {
      TidyPiece(plan[1..], p - 1);
    }
  }

  /** A sentence within the limit sits whole, at a definite place, inside exactly one
      chunk: the one rendered from the group that covers its position. */
  lemma FittingSentenceIsWhole(text: string, i: nat, maxChars: nat, maxSentences: int)
    returns (p: nat, offset: nat)
    requires maxChars >= 1
    requires i < |SentencesOf(text)| && |SentencesOf(text)[i]| <= maxChars
    ensures var plan := PlanOf(text, maxChars, maxSentences);
      && p < |plan| && plan[p].Group? && offset < |plan[p].sentences|
      && plan[p].sentences[offset] == SentencesOf(text)[i]
      && i == |Flatten(plan[..p])| + offset
      && Chunks(text, maxChars, maxSentences)
         == Render(plan[..p], maxChars) + ([Join(plan[p].sentences)] + Render(plan[p + 1..], maxChars))
  {
    var plan := PlanOf(text, maxChars, maxSentences);
    PlanOfSpec(text, maxChars, maxSentences);
    p, offset := Locate(plan, i);
    assert ValidPiece(plan[p], maxChars, maxSentences);
    TidyPiece(plan, p);
    RenderPieceSpec(plan[p], maxChars, maxSentences);
    RenderAround(plan, p, maxChars);
  }

  // ---------------------------------------------------------------- optimality

  /** `layout` without its first `k` sentences; a group may be cut, a sentence never is. */
  function Drop(layout: seq<Piece>, k: nat): seq<Piece> {
    if k == 0 || layout == [] then layout
    else if k >= |Content(layout[0])| then Drop(layout[1..], k - |Content(layout[0])|)
    else match layout[0]
      case Group(g) => [Group(g[k..])] + layout[1..]
      case Oversized(_) => layout
  }

  lemma CutGroup(g: seq<string>, k: nat, maxChars: nat, maxSentences: int)
    requires k < |g| && ValidPiece(Group(g), maxChars, maxSentences)
    ensures ValidPiece(Group(g[k..]), maxChars, maxSentences)
  {
    assert g == g[..k] + g[k..];
    JoinMonotone(g[..k], g[k..]);
  }

  lemma {:induction false} DropIsValid(layout: seq<Piece>, k: nat, maxChars: nat, maxSentences: int)
    requires ValidLayout(layout, maxChars, maxSentences)
    ensures ValidLayout(Drop(layout, k), maxChars, maxSentences)
    ensures |Drop(layout, k)| <= |layout|
    ensures layout != [] && k >= |Content(layout[0])| ==> |Drop(layout, k)| < |layout|
  {
    if k > 0 && layout != [] {
      if k >= |Content(layout[0])| {
        DropIsValid(layout[1..], k - |Content(layout[0])|, maxChars, maxSentences);
      } else if layout[0].Group? {
        CutGroup(layout[0].sentences, k, maxChars, maxSentences);
      }
    }
  }

  lemma {:induction false} DropFlattens(layout: seq<Piece>, k: nat)
    requires k <= |Flatten(layout)|
    ensures Flatten(Drop(layout, k)) == Flatten(layout)[k..]
  {
    if k > 0 && layout != [] {
      var head, rest := Content(layout[0]), layout[1..];
      if k >= |head| {
        DropFlattens(rest, k - |head|);
      } else {
        FlattenCons(Group(head[k..]), rest);
      }
    }
  }

  lemma DropSpec(layout: seq<Piece>, k: nat, maxChars: nat, maxSentences: int)
    requires ValidLayout(layout, maxChars, maxSentences) && k <= |Flatten(layout)|
    ensures ValidLayout(Drop(layout, k), maxChars, maxSentences)
    ensures Flatten(Drop(layout, k)) == Flatten(layout)[k..]
    ensures |Drop(layout, k)| <= |layout|
    ensures layout != [] && k >= |Content(layout[0])| ==> |Drop(layout, k)| < |layout|
  {
    DropIsValid(layout, k, maxChars, maxSentences);
    DropFlattens(layout, k);
  }

  /** The first piece of a layout of `current + [s] + tail` cannot reach past `current`
      when `s` cannot join `current`. */
  lemma FirstPieceStops(current: seq<string>, s: string, tail: seq<string>, layout: seq<Piece>,
                        maxChars: nat, maxSentences: int)
    requires ValidLayout(layout, maxChars, maxSentences) && Flatten(layout) == current + [s] + tail
    requires current != [] && |s| <= maxChars ==> !ValidPiece(Group(current + [s]), maxChars, maxSentences)
    requires current != []
    ensures layout != [] && |Content(layout[0])| <= |current|
  {
    var head := Content(layout[0]);
    if |head| > |current| {
      var g := layout[0].sentences;
      assert g[..|current| + 1] == Flatten(layout)[..|current| + 1] == current + [s];
      var upto := g[..|current| + 1];
      assert g == upto + g[|current| + 1..];
      JoinMonotone(upto, g[|current| + 1..]);
      JoinMonotone(current, [s]);
    }
  }

  lemma OversizedStandsAlone(s: string, tail: seq<string>, layout: seq<Piece>, maxChars: nat, maxSentences: int)
    requires |s| > maxChars && ValidLayout(layout, maxChars, maxSentences)
    requires Flatten(layout) == [s] + tail
    ensures layout != [] && Flatten(layout[1..]) == tail
    ensures ValidLayout(layout[1..], maxChars, maxSentences)
  {
    var head := Content(layout[0]);
    assert Flatten(layout) == head + Flatten(layout[1..]);
    assert head[0] == Flatten(layout)[0] == s;
    if layout[0].Group? {
      assert false;
    }
    assert Flatten(layout)[1..] == tail;
  }


  /** Without the sentences of `current` a layout is shorter by the piece a flush emits, when
      the next sentence cannot join `current`. */
  lemma AfterFlush(current: seq<string>, s: string, tail: seq<string>, layout: seq<Piece>,
                   maxChars: nat, maxSentences: int)
    requires ValidLayout(layout, maxChars, maxSentences) && Flatten(layout) == current + [s] + tail
    requires current != [] && |s| <= maxChars ==> !ValidPiece(Group(current + [s]), maxChars, maxSentences)
    ensures var later := Drop(layout, |current|);
      && ValidLayout(later, maxChars, maxSentences) && Flatten(later) == [s] + tail
      && |Flush(current)| + |later| <= |layout|
  {
    if current != [] {
      FirstPieceStops(current, s, tail, layout, maxChars, maxSentences);
    }
    DropSpec(layout, |current|, maxChars, maxSentences);
    hide Drop, ValidLayout, ValidPiece, Flatten;
    assert (current + [s] + tail)[|current|..] == [s] + tail;
  }

  lemma SingleFits(s: string, maxChars: nat, maxSentences: int)
    requires |s| <= maxChars
    ensures ValidPiece(Group([s]), maxChars, maxSentences)
  { }

  lemma FlushIsMinimal(current: seq<string>, layout: seq<Piece>)
    requires Flatten(layout) == current
    ensures |Flush(current)| <= |layout|
  { }

  lemma PlanOfNothing(current: seq<string>, maxChars: nat, maxSentences: int)
    ensures Plan(current, [], maxChars, maxSentences) == Flush(current)
  { }

  lemma MustFlushSomething(current: seq<string>, s: string, maxChars: nat, maxSentences: int)
    requires MustFlush(current, s, maxChars, maxSentences)
    ensures current != [] && |Flush(current)| == 1
  { }

  /** Greedy stays ahead: no layout of the same sentences has fewer pieces. */
  lemma {:induction false} GreedyIsMinimal(current: seq<string>, rest: seq<string>, layout: seq<Piece>,
                                           maxChars: nat, maxSentences: int)
    requires Tidy(current + rest)
    requires current == [] || ValidPiece(Group(current), maxChars, maxSentences)
    requires ValidLayout(layout, maxChars, maxSentences) && Flatten(layout) == current + rest
    ensures |Plan(current, rest, maxChars, maxSentences)| <= |layout|
    decreases |rest|
  {
    hide *;
    if rest == [] {
      assert current + [] == current;
      PlanOfNothing(current, maxChars, maxSentences);
      FlushIsMinimal(current, layout);
    } else {
      var s, tail := rest[0], rest[1..];
      NextShifts(current, rest);
      TidyParts(current, s, tail);
      PlanNext(current, rest, maxChars, maxSentences);
      if |s| > maxChars {
        AfterFlush(current, s, tail, layout, maxChars, maxSentences);
        var later := Drop(layout, |current|);
        OversizedStandsAlone(s, tail, later, maxChars, maxSentences);
        GreedyIsMinimal([], tail, later[1..], maxChars, maxSentences);
      } else {
        FitsUnlessFlushed(current, s, maxChars, maxSentences);
        if MustFlush(current, s, maxChars, maxSentences) {
          MustFlushSomething(current, s, maxChars, maxSentences);
          AfterFlush(current, s, tail, layout, maxChars, maxSentences);
          SingleFits(s, maxChars, maxSentences);
          GreedyIsMinimal([s], tail, Drop(layout, |current|), maxChars, maxSentences);
        } else {
          GreedyIsMinimal(current + [s], tail, layout, maxChars, maxSentences);
        }
      }
    }
  }

  /** Chunks an oversized sentence costs beyond the one its piece accounts for. */
  function ExtraSlices(ss: seq<string>, maxChars: nat): int
    requires maxChars >= 1
  {
    if ss == [] then 0
    else (if |ss[0]| > maxChars then |StripAll(Slices(ss[0], maxChars))| - 1 else 0) + ExtraSlices(ss[1..], maxChars)
  }

  lemma {:induction false} ExtraConcat(a: seq<string>, b: seq<string>, maxChars: nat)
    requires maxChars >= 1
    ensures ExtraSlices(a + b, maxChars) == ExtraSlices(a, maxChars) + ExtraSlices(b, maxChars)
  {
    if a == [] {
      assert a + b == b;
    } else {
      assert (a + b)[1..] == a[1..] + b;
      ExtraConcat(a[1..], b, maxChars);
    }
  }

  lemma {:induction false} GroupHasNoExtra(g: seq<string>, maxChars: nat)
    requires maxChars >= 1 && |Join(g)| <= maxChars
    ensures ExtraSlices(g, maxChars) == 0
  {
    if g != [] {
      assert g == [g[0]] + g[1..];
      JoinMonotone([g[0]], g[1..]);
      GroupHasNoExtra(g[1..], maxChars);
    }
  }

  /** The number of chunks depends on the layout only through its number of pieces. */
  lemma {:induction false} ChunkCount(layout: seq<Piece>, maxChars: nat, maxSentences: int)
    requires maxChars >= 1 && ValidLayout(layout, maxChars, maxSentences)
    ensures |Render(layout, maxChars)| == |layout| + ExtraSlices(Flatten(layout), maxChars)
  {
    if layout != [] {
      ChunkCount(layout[1..], maxChars, maxSentences);
      ExtraConcat(Content(layout[0]), Flatten(layout[1..]), maxChars);
      match layout[0]
      case Group(g) => GroupHasNoExtra(g, maxChars);
      case Oversized(s) => assert [s][1..] == [];
    }
  }

  /** Greedy optimality on whole texts: no way of packing the same sentences in order
      within the same limits yields fewer chunks. */
  lemma SplitIsOptimal(text: string, layout: seq<Piece>, maxChars: nat, maxSentences: int)
    requires maxChars >= 1
    requires ValidLayout(layout, maxChars, maxSentences) && Flatten(layout) == SentencesOf(text)
    ensures ValidLayout(PlanOf(text, maxChars, maxSentences), maxChars, maxSentences)
    ensures Flatten(PlanOf(text, maxChars, maxSentences)) == SentencesOf(text)
    ensures |Chunks(text, maxChars, maxSentences)| <= |Render(layout, maxChars)|
  {
    var ss := SentencesOf(text);
    PlanOfSpec(text, maxChars, maxSentences);
    assert [] + ss == ss;
    GreedyIsMinimal([], ss, layout, maxChars, maxSentences);
    ChunkCount(layout, maxChars, maxSentences);
    ChunkCount(PlanOf(text, maxChars, maxSentences), maxChars, maxSentences);
  }
}
