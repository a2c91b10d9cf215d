/**
 * In-app PPTX viewing: turning a deck's slides into slide items (the text
 * paragraphs and the first readable picture of each slide), and the slide
 * list that shows them. The presentation parser is abstract: a deck is the
 * sequence of its slides, each the sequence of its shapes.
 */
module Slides {
  import opened Wrappers
  import opened Strings
  import opened Seqs

  type Bytes = seq<bv8>

  /**
   * A shape on a slide: a text shape with its text (null possible), a
   * picture whose data is `None` when reading it throws, or anything else.
   */
  datatype Shape = TextShape(text: Option<string>) | PictureShape(data: Option<Bytes>) | OtherShape

  /** PptxSlideAdapter.SlideItem */
  datatype SlideItem = SlideItem(slideNumber: int, text: string, firstImageBytes: Option<Bytes>)

  /** The SlideItem constructor: a null text is stored as "". */
  function NewSlideItem(slideNumber: int, text: Option<string>, firstImageBytes: Option<Bytes>): (r: SlideItem)
    ensures r.slideNumber == slideNumber && r.firstImageBytes == firstImageBytes
    ensures r.text == if text.Some? then text.value else ""
  {
    SlideItem(slideNumber, if text.Some? then text.value else "", firstImageBytes)
  }

  // ---- one slide ----

  /** What a shape adds to the slide text: its trimmed text, when it has one that is not blank. */
  function Paragraph(shape: Shape): Option<string>
  {
    if shape.TextShape? && shape.text.Some? && Trim(shape.text.value) != "" then Some(Trim(shape.text.value))
    else None
  }

  /** The slide's paragraphs, in shape order. */
  function Paragraphs(shapes: seq<Shape>): seq<string>
  {
    FilterMap(shapes, Paragraph)
  }

  /** The StringBuilder: pieces joined by a blank line ("\n\n" only once something is there). */
  function Join(pieces: seq<string>): string
  {
    if |pieces| == 0 then ""
    else
      var text := Join(pieces[..|pieces| - 1]);
      var t := pieces[|pieces| - 1];
      if |text| > 0 then text + "\n\n" + t else text + t
  }

  lemma JoinSnoc(pieces: seq<string>, t: string)
    ensures Join(pieces + [t]) == if |Join(pieces)| > 0 then Join(pieces) + "\n\n" + t else Join(pieces) + t
  {
    assert (pieces + [t])[..|pieces|] == pieces;
  }

  /** The text of a slide. */
  function SlideText(shapes: seq<Shape>): string
  {
    Join(Paragraphs(shapes))
  }

  /** What reading a shape's picture yields: its data, or nothing if it is no picture or the read threw. */
  function ReadPicture(shape: Shape): Option<Bytes>
  {
    if shape.PictureShape? then shape.data else None
  }

  /** The first picture data that could be read. */
  function FirstImage(shapes: seq<Shape>): Option<Bytes>
  {
    if |shapes| == 0 then None
    else
      var found := FirstImage(shapes[..|shapes| - 1]);
      if found.Some? then found else ReadPicture(shapes[|shapes| - 1])
  }

  /** Position `k` holds the first shape whose picture could be read. */
  predicate FirstReadable(shapes: seq<Shape>, k: int)
  {
    0 <= k < |shapes| && ReadPicture(shapes[k]).Some? && forall j :: 0 <= j < k ==> ReadPicture(shapes[j]).None?
  }

  /**
   * The image is the data of the first picture that could be read; a
   * picture whose read failed does not stop a later one, and once found
   * later pictures are ignored. No readable picture, no image.
   */
  lemma {:induction false} FirstImageSpec(shapes: seq<Shape>)
    ensures FirstImage(shapes).None? <==> forall k :: 0 <= k < |shapes| ==> ReadPicture(shapes[k]).None?
    ensures forall k :: FirstReadable(shapes, k) ==> FirstImage(shapes) == ReadPicture(shapes[k])
  {
    if |shapes| > 0 {
      var init := shapes[..|shapes| - 1];
      FirstImageSpec(init);
      assert forall k :: 0 <= k < |init| ==> init[k] == shapes[k];
      forall k | FirstReadable(shapes, k) ensures FirstImage(shapes) == ReadPicture(shapes[k]) {
        if k < |init| {
          assert FirstReadable(init, k);
        }
      }
    }
  }

  /** Paragraphs are trimmed and not empty. */
  lemma ParagraphsTrimmed(shapes: seq<Shape>)
    ensures forall p :: p in Paragraphs(shapes) ==> p != "" && IsTrimmed(p)
  {
    forall p | p in Paragraphs(shapes) ensures p != "" && IsTrimmed(p) {
      FilterMapMembers(shapes, Paragraph, p);
      var s :| s in shapes && Paragraph(s) == Some(p);
      var a, b := TrimShape(s.text.value);
    }
  }

  /** Joining non-empty trimmed pieces gives a trimmed text, empty exactly when there are no pieces. */
  lemma {:induction false} JoinTrimmed(pieces: seq<string>)
    requires forall p :: p in pieces ==> p != "" && IsTrimmed(p)
    ensures Join(pieces) == "" <==> pieces == []
    ensures IsTrimmed(Join(pieces))
  {
    if |pieces| > 0 {
      var init := pieces[..|pieces| - 1];
      var t := pieces[|pieces| - 1];
      assert t in pieces;
      assert forall p :: p in init ==> p in pieces;
      JoinTrimmed(init);
      var text := Join(init);
      if |text| > 0 {
        var r := text + "\n\n" + t;
        assert r[0] == text[0];
        assert r[|r| - 1] == t[|t| - 1];
      } else {
        assert text + t == t;
      }
    }
  }

  /**
   * The slide text is trimmed, and it is empty exactly when no text shape
   * carries a text that is not blank.
   */
  lemma SlideTextSpec(shapes: seq<Shape>)
    ensures IsTrimmed(SlideText(shapes))
    ensures SlideText(shapes) == "" <==>
              forall k :: 0 <= k < |shapes| ==> !(shapes[k].TextShape? && shapes[k].text.Some? && !IsBlank(shapes[k].text.value))
  {
    ParagraphsTrimmed(shapes);
    JoinTrimmed(Paragraphs(shapes));
    forall k | 0 <= k < |shapes| && shapes[k].TextShape? && shapes[k].text.Some?
      ensures Paragraph(shapes[k]).None? <==> IsBlank(shapes[k].text.value)
    {
      TrimEmptyIffBlank(shapes[k].text.value);
    }
    if Paragraphs(shapes) != [] {
      var p := Paragraphs(shapes)[0];
      FilterMapMembers(shapes, Paragraph, p);
    } else {
      forall k | 0 <= k < |shapes| ensures Paragraph(shapes[k]).None? {
        if Paragraph(shapes[k]).Some? {
          FilterMapMembers(shapes, Paragraph, Paragraph(shapes[k]).value);
        }
      }
    }
  }

  /** The per-slide loop of loadPPTXInsideApp: the text builder and the first image. */
  method ExtractSlide(shapes: seq<Shape>) returns (text: string, firstImage: Option<Bytes>)
    ensures text == SlideText(shapes) && firstImage == FirstImage(shapes)
  {
    text := "";
    firstImage := None;
    for i := 0 to |shapes|
      invariant text == Join(Paragraphs(shapes[..i]))
      invariant firstImage == FirstImage(shapes[..i])
    {
      var shape := shapes[i];
      assert shapes[..i + 1][..i] == shapes[..i];
      ghost var before := Paragraphs(shapes[..i]);
      assert Paragraphs(shapes[..i + 1]) == before + (if Paragraph(shape).Some? then [Paragraph(shape).value] else []);
      if Paragraph(shape).Some? {
        JoinSnoc(before, Paragraph(shape).value);
      } else {
        assert before + [] == before;
      }
      if shape.TextShape? {
        var t := shape.text;
        if t.Some? {
          var trimmed := Trim(t.value);
          if trimmed != "" {
            if |text| > 0 {
              text := text + "\n\n";
            }
            text := text + trimmed;
          }
        }
      } else if firstImage.None? && shape.PictureShape? {
        firstImage := shape.data;
      }
    }
    assert shapes[..|shapes|] == shapes;
  }

  // ---- the deck ----

  /** The item built for the slide at 0-based index `i`. */
  function SlideOf(i: nat, shapes: seq<Shape>): SlideItem
  {
    NewSlideItem(i + 1, Some(SlideText(shapes)), FirstImage(shapes))
  }

  /** How many slides are built when parsing throws at slide `failsAt` (None: it does not). */
  function ParsedCount(slideCount: nat, failsAt: Option<nat>): (n: nat)
    ensures n <= slideCount
    ensures n < slideCount <==> failsAt.Some? && failsAt.value < slideCount
    ensures n < slideCount ==> n == failsAt.value
  {
    if failsAt.Some? && failsAt.value < slideCount then failsAt.value else slideCount
  }

  /**
   * The background part of loadPPTXInsideApp. Slide i becomes item i + 1,
   * in deck order; when parsing throws, the items already built are kept.
   * Opening a file that is no presentation throws before the first slide.
   */
  method ExtractSlides(deck: seq<seq<Shape>>, failsAt: Option<nat>) returns (slides: seq<SlideItem>)
    ensures |slides| == ParsedCount(|deck|, failsAt)
    ensures forall i :: 0 <= i < |slides| ==> slides[i] == SlideOf(i, deck[i])
  {
    slides := [];
    for i := 0 to |deck|
      invariant |slides| == i
      invariant forall j :: 0 <= j < i ==> slides[j] == SlideOf(j, deck[j])
      invariant failsAt.Some? ==> failsAt.value >= i
    {
      if failsAt == Some(i) {
        return;
      }
      var text, firstImage := ExtractSlide(deck[i]);
      slides := slides + [NewSlideItem(i + 1, Some(text), firstImage)];
    }
  }

  // ---- the slide list ----

  /** What a bound slide row shows: its title, its text if visible, its image if visible. */
  datatype SlideView = SlideView(title: string, text: Option<string>, image: Option<Bytes>)

  /** SlideViewHolder.bind; `decodes` says whether BitmapFactory yields a bitmap for the bytes. */
  function Bind(item: SlideItem, decodes: Bytes -> bool): (v: SlideView)
    ensures v.text.Some? <==> !IsBlank(item.text)
    ensures v.text.Some? ==> v.text.value == item.text
    ensures v.image.Some? <==> (item.firstImageBytes.Some? && |item.firstImageBytes.value| > 0
                                && decodes(item.firstImageBytes.value))
    ensures v.image.Some? ==> v.image.value == item.firstImageBytes.value
  {
    TrimEmptyIffBlank(item.text);
    var text := if Trim(item.text) == "" then None else Some(item.text);
    var image :=
      if item.firstImageBytes.Some? && |item.firstImageBytes.value| > 0 && decodes(item.firstImageBytes.value)
      then item.firstImageBytes
      else None;
    SlideView("Slide " + IntToString(item.slideNumber), text, image)
  }

  /** The title is "Slide " followed by the decimal slide number, which reads back as that number. */
  lemma SlideTitle(item: SlideItem, decodes: Bytes -> bool)
    ensures StartsWith(Bind(item, decodes).title, "Slide ")
    ensures ParseDecimal(Bind(item, decodes).title[6..]) == item.slideNumber
  {
    var title := Bind(item, decodes).title;
    assert title[6..] == IntToString(item.slideNumber);
    IntToStringRoundTrip(item.slideNumber);
  }

  /**
   * A slide taken from a deck shows its text exactly when one of its text
   * shapes has a text that is not blank, and its image only when the first
   * readable picture is non-empty and decodes.
   */
  lemma ExtractedSlideShown(i: nat, shapes: seq<Shape>, decodes: Bytes -> bool)
    ensures var v := Bind(SlideOf(i, shapes), decodes);
            && (v.text.Some? <==>
                  exists k :: 0 <= k < |shapes| && shapes[k].TextShape? && shapes[k].text.Some? && !IsBlank(shapes[k].text.value))
            && (v.image.Some? ==> exists k :: FirstReadable(shapes, k) && ReadPicture(shapes[k]) == v.image)
  {
    SlideTextSpec(shapes);
    var text := SlideText(shapes);
    if text != "" {
      assert !IsBlank(text) by {
        assert !IsSpace(text[0]);
      }
    }
    FirstImageSpec(shapes);
    var v := Bind(SlideOf(i, shapes), decodes);
    if v.image.Some? {
      var k := FirstReadableIndex(shapes);
      assert FirstReadable(shapes, k);
    }
  }

  /** When some picture can be read, the position of the first one. */
  lemma {:induction false} FirstReadableIndex(shapes: seq<Shape>) returns (k: nat)
    requires exists j :: 0 <= j < |shapes| && ReadPicture(shapes[j]).Some?
    ensures FirstReadable(shapes, k)
  {
    if ReadPicture(shapes[0]).Some? {
      k := 0;
    } else {
      var j :| 0 <= j < |shapes| && ReadPicture(shapes[j]).Some?;
      assert ReadPicture(shapes[1..][j - 1]).Some?;
      var k' := FirstReadableIndex(shapes[1..]);
      k := k' + 1;
      assert forall m :: 1 <= m < k ==> shapes[m] == shapes[1..][m - 1];
    }
  }

  /** PptxSlideAdapter */
  class SlideList {
    var slides: seq<SlideItem>

    constructor ()
      ensures slides == []
    {
      slides := [];
    }

    /** setSlides: a null list installs the empty list. */
    method SetSlides(newSlides: Option<seq<SlideItem>>)
      modifies this
      ensures slides == if newSlides.Some? then newSlides.value else []
    {
      slides := if newSlides.None? then [] else newSlides.value;
    }

    /** getItemCount */
    method ItemCount() returns (n: int)
      ensures n == |slides|
    {
      n := |slides|;
    }

    /** onBindViewHolder */
    method BindRow(position: int, decodes: Bytes -> bool) returns (v: SlideView)
      requires 0 <= position < |slides|
      ensures v == Bind(slides[position], decodes)
    {
      v := Bind(slides[position], decodes);
    }
  }
}
