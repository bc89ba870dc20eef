/** Paragraph and sentence splitting (`split_text_semantic`, first half).

    Both `re.split` calls are written as left-to-right scans; `acc` is the piece
    being built. The sentence pattern looks one character back, and that
    character is always the last one of `acc` because a match ends on whitespace. */
module Sentences {
  import opened Text

  /** `[.!?…]` */
  predicate IsEnder(c: char) {
    c == '.' || c == '!' || c == '?' || c as int == 0x2026
  }

  function DropNewlines(s: string): (r: string)
    ensures |r| <= |s|
    ensures s != "" && s[0] == '\n' ==> |r| < |s|
  {
    if s != "" && s[0] == '\n' then DropNewlines(s[1..]) else s
  }

  /** `re.split(r"\n{2,}", acc + s)` when `acc` holds no paragraph break. */
  function ParagraphPieces(s: string, acc: string): seq<string>
    decreases |s|
  {
    if s == "" then [acc]
    else if |s| >= 2 && s[0] == '\n' && s[1] == '\n' then [acc] + ParagraphPieces(DropNewlines(s), "")
    else ParagraphPieces(s[1..], acc + [s[0]])
  }

  predicate BreaksBefore(acc: string, c: char) {
    acc != "" && IsEnder(acc[|acc| - 1]) && IsSpace(c)
  }

  /** `_SENTENCE_SPLIT_RE.split(acc + s)` when `acc` holds no sentence break. */
  function SentencePieces(s: string, acc: string): seq<string>
    decreases |s|
  {
    if s == "" then [acc]
    else if BreaksBefore(acc, s[0]) then [acc] + SentencePieces(TrimLeft(s), "")
    else SentencePieces(s[1..], acc + [s[0]])
  }

  /** `_paragraph_sentences(paragraph) or [paragraph]` */
  function ParagraphSentences(paragraph: string): seq<string> {
    var found := StripAll(SentencePieces(paragraph, ""));
    if found == [] then [paragraph] else found
  }

  function AllParagraphSentences(paragraphs: seq<string>): seq<string> {
    if paragraphs == [] then []
    else ParagraphSentences(paragraphs[0]) + AllParagraphSentences(paragraphs[1..])
  }

  /** The sentence list the packing loop walks over. */
  function SentencesOf(text: string): seq<string> {
    var cleaned := Strip(text);
    if cleaned == "" then [] else AllParagraphSentences(StripAll(ParagraphPieces(cleaned, "")))
  }

  lemma VisibleSnoc(acc: string, s: string)
    requires s != ""
    ensures Visible(acc + [s[0]]) + Visible(s[1..]) == Visible(acc) + Visible(s)
  {
    VisibleConcat(acc, [s[0]]);
    VisibleConcat([s[0]], s[1..]);
    assert s == [s[0]] + s[1..];
  }

  lemma {:induction false} DropNewlinesVisible(s: string)
    ensures Visible(DropNewlines(s)) == Visible(s)
  {
    if s != "" && s[0] == '\n' {
      DropNewlinesVisible(s[1..]);
    }
  }

  lemma {:induction false} ParagraphPiecesVisible(s: string, acc: string)
    ensures VisibleAll(ParagraphPieces(s, acc)) == Visible(acc) + Visible(s)
    decreases |s|
  {
    if s == "" {
    } else if |s| >= 2 && s[0] == '\n' && s[1] == '\n' {
      DropNewlinesVisible(s);
      ParagraphPiecesVisible(DropNewlines(s), "");
      VisibleAllCons(acc, ParagraphPieces(DropNewlines(s), ""));
    } else {
      ParagraphPiecesVisible(s[1..], acc + [s[0]]);
      VisibleSnoc(acc, s);
    }
  }

  lemma {:induction false} SentencePiecesVisible(s: string, acc: string)
    ensures VisibleAll(SentencePieces(s, acc)) == Visible(acc) + Visible(s)
    decreases |s|
  {
    if s == "" {
    } else if BreaksBefore(acc, s[0]) {
      TrimLeftSpec(s);
      SentencePiecesVisible(TrimLeft(s), "");
      VisibleAllCons(acc, SentencePieces(TrimLeft(s), ""));
    } else {
      SentencePiecesVisible(s[1..], acc + [s[0]]);
      VisibleSnoc(acc, s);
    }
  }

  lemma ParagraphSentencesSpec(paragraph: string)
    requires paragraph != "" && Stripped(paragraph)
    ensures VisibleAll(ParagraphSentences(paragraph)) == Visible(paragraph)
    ensures Tidy(ParagraphSentences(paragraph))
  {
    var pieces := SentencePieces(paragraph, "");
    SentencePiecesVisible(paragraph, "");
    StripAllSpec(pieces);
  }

  lemma {:induction false} AllParagraphSentencesSpec(paragraphs: seq<string>)
    requires Tidy(paragraphs)
    ensures VisibleAll(AllParagraphSentences(paragraphs)) == VisibleAll(paragraphs)
    ensures Tidy(AllParagraphSentences(paragraphs))
  {
    if paragraphs != [] {
      ParagraphSentencesSpec(paragraphs[0]);
      AllParagraphSentencesSpec(paragraphs[1..]);
      VisibleAllConcat(ParagraphSentences(paragraphs[0]), AllParagraphSentences(paragraphs[1..]));
    }
  }

  /** Splitting loses only whitespace, and every sentence is non-empty and stripped. */
  lemma SentencesOfSpec(text: string)
    ensures VisibleAll(SentencesOf(text)) == Visible(text)
    ensures Tidy(SentencesOf(text))
    ensures SentencesOf(text) == [] <==> Blank(text)
  {
    var cleaned := Strip(text);
    StripSpec(text);
    BlankIsInvisible(text);
    if cleaned != "" {
      var pieces := ParagraphPieces(cleaned, "");
      ParagraphPiecesVisible(cleaned, "");
      StripAllSpec(pieces);
      AllParagraphSentencesSpec(StripAll(pieces));
    }
  }
}
