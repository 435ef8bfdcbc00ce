/** The title-bar text that the FPS overlay publishes: the base title,
    then " (FPS: ", the frame count in decimal, then ")". */
module FpsTitle {
  import opened Options
  import opened Numerals

  /** What comes between the base title and the count. */
  function CaptionPrefix(title: string): string {
    title + " (FPS: "
  }

  /** The caption shown for `frames` frames counted in the last sample. */
  function FpsCaption(title: string, frames: nat): (c: string)
    ensures |c| > |CaptionPrefix(title)| + 1
    ensures c[..|title|] == title && title < c
  {
    CaptionPrefix(title) + NatToString(frames) + ")"
  }

  /** Reads a caption back: the count it shows, or None for text that is not
      a caption over `title`. */
  function ParseCaption(title: string, text: string): Option<nat> {
    var p := |CaptionPrefix(title)|;
    if |text| >= p + 2 && text[..p] == CaptionPrefix(title) && text[|text| - 1] == ')'
       && IsCanonical(text[p..|text| - 1])
    then Some(StringToNat(text[p..|text| - 1]))
    else None
  }

  /** Parsing a published caption recovers its count. */
  lemma CaptionRoundTrip(title: string, frames: nat)
    ensures ParseCaption(title, FpsCaption(title, frames)) == Some(frames)
  {
    var c := FpsCaption(title, frames);
    var p := |CaptionPrefix(title)|;
    assert c[..p] == CaptionPrefix(title);
    assert c[p..|c| - 1] == NatToString(frames);
    NatToStringRoundTrip(frames);
  }

  /** The only texts that parse as a caption over `title` with count `frames`
      are the caption itself. */
  lemma ParsedCaptionIsCaption(title: string, text: string, frames: nat)
    requires ParseCaption(title, text) == Some(frames)
    ensures text == FpsCaption(title, frames)
  {
    var p := |CaptionPrefix(title)|;
    var digits := text[p..|text| - 1];
    CanonicalRoundTrip(digits);
    assert text == text[..p] + digits + [text[|text| - 1]];
  }

  /** Two captions over the same title are equal exactly when their counts are. */
  lemma CaptionInjective(title: string, a: nat, b: nat)
    ensures FpsCaption(title, a) == FpsCaption(title, b) <==> a == b
  {
    CaptionRoundTrip(title, a);
    CaptionRoundTrip(title, b);
  }

  /** What the title bar can show: the base title, or a caption over it. */
  predicate IsTitleBarText(title: string, text: string) {
    text == title || ParseCaption(title, text).Some?
  }

  /** Whatever the title bar shows begins with the base title. */
  lemma TitleBarTextExtendsTitle(title: string, text: string)
    requires IsTitleBarText(title, text)
    ensures title <= text
  {
    if text != title {
      ParsedCaptionIsCaption(title, text, ParseCaption(title, text).value);
    }
  }
}
