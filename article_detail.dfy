/** The article page's body: the markdown split into paragraphs, with an image figure placed after
    some of them. */
module ArticleDetail {
  import opened Wrappers
  import opened Text

  /** An image of the article as stored; `alt` and `caption` may be missing. */
  datatype Image = Image(url: string, alt: Option<string>, caption: Option<string>)

  /** One rendered block: paragraph number idx, or the figure for image number imageIndex,
      floated left or right, with its alt text and the caption when it has one. */
  datatype BodyItem =
    | Paragraph(idx: nat, text: string)
    | Figure(imageIndex: nat, url: string, alt: string, caption: Option<string>, floatLeft: bool)

  const ParagraphBreak := "\n\n"

  /** `Math.floor(idx / 2.5)`: the image a paragraph position asks for. The quotient 2·idx/5 is
      either an exact double or at least 1/5 away from an integer, so the floor is exact. */
  function ImageSlot(idx: nat): nat
  {
    (2 * idx) / 5
  }

  /** A figure follows paragraph idx when idx is 1 more than a multiple of 3 and its image exists. */
  predicate FigureAfter(idx: nat, imageCount: nat)
  {
    idx % 3 == 1 && ImageSlot(idx) < imageCount
  }

  function FigureOf(image: Image, imageIndex: nat, title: string): (item: BodyItem)
    ensures item.Figure? && item.imageIndex == imageIndex && item.url == image.url
    ensures item.floatLeft <==> imageIndex % 2 == 0
  {
    var caption := if image.caption.Some? && image.caption.value != "" then image.caption else None;
    Figure(imageIndex, image.url, OrElse(image.alt, title), caption, imageIndex % 2 == 0)
  }

  /** What paragraph idx contributes: itself, then its figure when one is due. */
  function ItemsAt(text: string, idx: nat, images: seq<Image>, title: string): (items: seq<BodyItem>)
    ensures |items| == if FigureAfter(idx, |images|) then 2 else 1
    ensures items[0] == Paragraph(idx, text)
    ensures |items| == 2 ==> items[1] == FigureOf(images[ImageSlot(idx)], ImageSlot(idx), title)
  {
    [Paragraph(idx, text)] + if FigureAfter(idx, |images|) then [FigureOf(images[ImageSlot(idx)], ImageSlot(idx), title)] else []
  }

  /** The body for the paragraphs ps. */
  function Layout(ps: seq<string>, images: seq<Image>, title: string): seq<BodyItem>
  {
    if ps == [] then []
    else Layout(ps[..|ps| - 1], images, title) + ItemsAt(ps[|ps| - 1], |ps| - 1, images, title)
  }

  /** The loop over the paragraphs, pushing each paragraph and then its figure. */
  method InterleaveBody(summaryMd: string, articleImages: Option<seq<Image>>, title: string) returns (result: seq<BodyItem>)
    ensures result == Layout(Split(summaryMd, ParagraphBreak), articleImages.GetOr([]), title)
  {
    var paragraphs := Split(summaryMd, ParagraphBreak);
    var images := articleImages.GetOr([]);
    result := [];
    for idx := 0 to |paragraphs|
      invariant result == Layout(paragraphs[..idx], images, title)
    {
      assert paragraphs[..idx + 1][..idx] == paragraphs[..idx];
      ghost var before := result;
      result := result + [Paragraph(idx, paragraphs[idx])];
      var imageIdx := (2 * idx) / 5;
      if imageIdx < |images| && idx % 3 == 1 {
        var image := images[imageIdx];
        var caption := if image.caption.Some? && image.caption.value != "" then image.caption else None;
        result := result + [Figure(imageIdx, image.url, OrElse(image.alt, title), caption, imageIdx % 2 == 0)];
      }
      assert result == before + ItemsAt(paragraphs[idx], idx, images, title);
    }
    assert paragraphs[..|paragraphs|] == paragraphs;
  }

  // ---------------------------------------------------------------- what the layout shows

  function ParagraphTexts(items: seq<BodyItem>): seq<string>
  {
    if items == [] then []
    else (if items[0].Paragraph? then [items[0].text] else []) + ParagraphTexts(items[1..])
  }

  function FigureIndices(items: seq<BodyItem>): seq<nat>
  {
    if items == [] then []
    else (if items[0].Figure? then [items[0].imageIndex] else []) + FigureIndices(items[1..])
  }

  lemma {:induction false} ParagraphTextsAppend(a: seq<BodyItem>, b: seq<BodyItem>)
    ensures ParagraphTexts(a + b) == ParagraphTexts(a) + ParagraphTexts(b)
  {
    if a == [] {
      assert a + b == b;
    } else {
      assert (a + b)[0] == a[0];
      assert (a + b)[1..] == a[1..] + b;
      ParagraphTextsAppend(a[1..], b);
    }
  }

  lemma {:induction false} FigureIndicesAppend(a: seq<BodyItem>, b: seq<BodyItem>)
    ensures FigureIndices(a + b) == FigureIndices(a) + FigureIndices(b)
  {
    if a == [] {
      assert a + b == b;
    } else {
      assert (a + b)[0] == a[0];
      assert (a + b)[1..] == a[1..] + b;
      FigureIndicesAppend(a[1..], b);
    }
  }

  /** The images shown after the first n paragraphs, in order. */
  function ShownImages(n: nat, imageCount: nat): (shown: seq<nat>)
    ensures forall k :: 0 <= k < |shown| ==> shown[k] < imageCount
    ensures |shown| <= n
  {
    if n == 0 then []
    else ShownImages(n - 1, imageCount) + if FigureAfter(n - 1, imageCount) then [ImageSlot(n - 1)] else []
  }

  lemma ItemsAtContents(text: string, idx: nat, images: seq<Image>, title: string)
    ensures ParagraphTexts(ItemsAt(text, idx, images, title)) == [text]
    ensures FigureIndices(ItemsAt(text, idx, images, title)) == if FigureAfter(idx, |images|) then [ImageSlot(idx)] else []
  {
    var items := ItemsAt(text, idx, images, title);
    var rest := items[1..];
    if FigureAfter(idx, |images|) {
      assert rest[1..] == [];
      assert ParagraphTexts(rest) == [] && FigureIndices(rest) == [ImageSlot(idx)];
    } else {
      assert rest == [];
    }
  }

  /** Every block is either a paragraph or a figure. */
  lemma {:induction false} BlocksAreParagraphsOrFigures(items: seq<BodyItem>)
    ensures |ParagraphTexts(items)| + |FigureIndices(items)| == |items|
  {
    if items != [] {
      BlocksAreParagraphsOrFigures(items[1..]);
    }
  }

  /** Every paragraph appears exactly once and in order; between them stand exactly the figures
      of ShownImages; nothing else is emitted. */
  lemma LayoutContents(ps: seq<string>, images: seq<Image>, title: string)
    ensures ParagraphTexts(Layout(ps, images, title)) == ps
    ensures FigureIndices(Layout(ps, images, title)) == ShownImages(|ps|, |images|)
    ensures |Layout(ps, images, title)| == |ps| + |ShownImages(|ps|, |images|)|
  {
    LayoutParagraphs(ps, images, title);
    LayoutFigures(ps, images, title);
    BlocksAreParagraphsOrFigures(Layout(ps, images, title));
  }

  lemma {:induction false} LayoutParagraphs(ps: seq<string>, images: seq<Image>, title: string)
    ensures ParagraphTexts(Layout(ps, images, title)) == ps
  {
    if ps != [] {
      var init := ps[..|ps| - 1];
      var idx := |ps| - 1;
      LayoutParagraphs(init, images, title);
      ParagraphTextsAppend(Layout(init, images, title), ItemsAt(ps[idx], idx, images, title));
      ItemsAtContents(ps[idx], idx, images, title);
      assert init + [ps[idx]] == ps;
    }
  }

  lemma {:induction false} LayoutFigures(ps: seq<string>, images: seq<Image>, title: string)
    ensures FigureIndices(Layout(ps, images, title)) == ShownImages(|ps|, |images|)
  {
    if ps != [] {
      var init := ps[..|ps| - 1];
      var idx := |ps| - 1;
      LayoutFigures(init, images, title);
      FigureIndicesAppend(Layout(init, images, title), ItemsAt(ps[idx], idx, images, title));
      ItemsAtContents(ps[idx], idx, images, title);
    }
  }

  /** Two positions that ask for a figure are at least three apart, so the later one's image slot
      is the larger. */
  lemma SlotGrows(i: nat, j: nat)
    requires i < j && i % 3 == j % 3
    ensures ImageSlot(i) < ImageSlot(j)
  {
    assert i == 3 * (i / 3) + i % 3;
    assert j == 3 * (j / 3) + j % 3;
    assert i + 3 <= j;
    var a := ImageSlot(i);
    assert 5 * a <= 2 * i;
    assert 5 * (a + 1) <= 2 * j;
  }

  /** Each shown image is the slot of some earlier paragraph position that asks for a figure. */
  lemma {:induction false} ShownImagesSlots(n: nat, imageCount: nat, k: nat)
    requires k < |ShownImages(n, imageCount)|
    ensures exists idx :: 0 <= idx < n && FigureAfter(idx, imageCount) && ShownImages(n, imageCount)[k] == ImageSlot(idx)
  {
    var prev := ShownImages(n - 1, imageCount);
    if k < |prev| {
      ShownImagesSlots(n - 1, imageCount, k);
      var idx :| 0 <= idx < n - 1 && FigureAfter(idx, imageCount) && prev[k] == ImageSlot(idx);
      assert ShownImages(n, imageCount)[k] == prev[k];
    } else {
      assert FigureAfter(n - 1, imageCount) && ShownImages(n, imageCount)[k] == ImageSlot(n - 1);
    }
  }

  /** No image is shown twice: the shown indices strictly increase. */
  lemma {:induction false} ShownImagesIncrease(n: nat, imageCount: nat)
    ensures forall k, l :: 0 <= k < l < |ShownImages(n, imageCount)| ==>
      ShownImages(n, imageCount)[k] < ShownImages(n, imageCount)[l]
  {
    if n > 0 {
      ShownImagesIncrease(n - 1, imageCount);
      var prev := ShownImages(n - 1, imageCount);
      if FigureAfter(n - 1, imageCount) {
        var slot := ImageSlot(n - 1);
        forall k | 0 <= k < |prev| ensures prev[k] < slot {
          ShownImagesSlots(n - 1, imageCount, k);
          var idx :| 0 <= idx < n - 1 && FigureAfter(idx, imageCount) && prev[k] == ImageSlot(idx);
          SlotGrows(idx, n - 1);
        }
        IncreasingExtend(prev, slot);
      }
    }
  }

  lemma IncreasingExtend(prev: seq<nat>, slot: nat)
    requires forall k, l :: 0 <= k < l < |prev| ==> prev[k] < prev[l]
    requires forall k :: 0 <= k < |prev| ==> prev[k] < slot
    ensures forall k, l :: 0 <= k < l < |prev| + 1 ==> (prev + [slot])[k] < (prev + [slot])[l]
  {
  }

  /** The image slot of a position one past a multiple of three is never 3 modulo 6: images 3, 9,
      15, ... are skipped however long the article is. */
  lemma SlotSkipsThreeModSix(idx: nat)
    requires idx % 3 == 1
    ensures ImageSlot(idx) % 6 != 3
  {
    var m := idx / 3;
    var q := m / 5;
    var r := m % 5;
    assert 2 * idx == 30 * q + (6 * r + 2);
    assert ImageSlot(idx) == 6 * q + (6 * r + 2) / 5;
  }

  /** Hence images 3 and 9 are never on the page. */
  lemma ImagesThreeAndNineNeverShown(ps: seq<string>, images: seq<Image>, title: string)
    ensures 3 !in FigureIndices(Layout(ps, images, title))
    ensures 9 !in FigureIndices(Layout(ps, images, title))
  {
    LayoutContents(ps, images, title);
    var shown := ShownImages(|ps|, |images|);
    forall k | 0 <= k < |shown| ensures shown[k] % 6 != 3 {
      ShownImagesSlots(|ps|, |images|, k);
      var idx :| 0 <= idx < |ps| && FigureAfter(idx, |images|) && shown[k] == ImageSlot(idx);
      SlotSkipsThreeModSix(idx);
    }
  }
}
