/** Clipboard items on their way into and out of the protocol (the `proto` module of
    rustdesk-master/src/clipboard.rs). Compression and UTF-8 are parameters. */
module Clipboard {
  import opened Wrappers

  type Byte = x: int | 0 <= x < 256
  type Bytes = seq<Byte>

  /** A 64-bit `usize`. */
  type Usize = x: int | 0 <= x < 0x1_0000_0000_0000_0000

  datatype ImageData = Rgba(width: Usize, height: Usize, pixels: Bytes) | Png(png: Bytes) | Svg(svg: string)

  datatype ClipboardData =
    | Text(text: string)
    | Rtf(rtf: string)
    | Html(html: string)
    | Image(image: ImageData)
    | Special(name: string, data: Bytes)
    | FileUrl(urls: seq<string>)
    | Nothing

  datatype Format = FText | FRtf | FHtml | FImageRgba | FImagePng | FImageSvg | FSpecial | FUnknown(code: int)

  datatype Clipboard = Clipboard(
    compress: bool,
    content: Bytes,
    width: int,
    height: int,
    format: Format,
    specialName: string
  )

  /** The library functions the converters call. */
  datatype Library = Library(
    compress: Bytes -> Bytes,
    decompress: Bytes -> Bytes,
    utf8: string -> Bytes,
    fromUtf8: Bytes -> Option<string>
  ) {
    /** Decompression undoes every compression that is used, and UTF-8 reads back. */
    ghost predicate Lawful() {
      && (forall b: Bytes :: |compress(b)| < |b| ==> decompress(compress(b)) == b)
      && (forall s: string :: fromUtf8(utf8(s)) == Some(s))
    }

    predicate Compresses(b: Bytes) {
      |compress(b)| < |b|
    }
  }

  /** `usize as i32`. */
  function ToI32(x: Usize): (i: int)
    ensures -0x8000_0000 <= i < 0x8000_0000
  {
    (x + 0x8000_0000) % 0x1_0000_0000 - 0x8000_0000
  }

  /** `i32 as usize`, sign-extending. */
  function ToUsize(i: int): Usize
    requires -0x8000_0000 <= i < 0x8000_0000
  {
    if i < 0 then i + 0x1_0000_0000_0000_0000 else i
  }

  /** A dimension survives exactly when it is below 2^31 or in the top 2^31 values. */
  lemma DimensionSurvives(x: Usize)
    ensures ToUsize(ToI32(x)) == x <==> x < 0x8000_0000 || x >= 0xFFFF_FFFF_8000_0000
  {
    if x < 0x8000_0000 {
      assert (x + 0x8000_0000) % 0x1_0000_0000 == x + 0x8000_0000;
    } else if x >= 0xFFFF_FFFF_8000_0000 {
      var low := x - 0xFFFF_FFFF_8000_0000;
      assert x + 0x8000_0000 == 0x1_0000_0000 * 0x1_0000_0000 + low;
      assert (x + 0x8000_0000) % 0x1_0000_0000 == low;
    }
  }

  // ---- encoding -----------------------------------------------------------

  function PlainToProto(lib: Library, b: Bytes, format: Format): Clipboard {
    Clipboard(lib.Compresses(b), if lib.Compresses(b) then lib.compress(b) else b, 0, 0, format, "")
  }

  function ImageToProto(lib: Library, a: ImageData): Clipboard {
    match a
    case Rgba(w, h, pixels) => PlainToProto(lib, pixels, FImageRgba).(width := ToI32(w), height := ToI32(h))
    case Png(png) => Clipboard(false, png, 0, 0, FImagePng, "")
    case Svg(svg) => PlainToProto(lib, lib.utf8(svg), FImageSvg)
  }

  /** When the data does not compress, the content is the bytes of the name. */
  function SpecialToProto(lib: Library, d: Bytes, s: string): Clipboard {
    Clipboard(lib.Compresses(d), if lib.Compresses(d) then lib.compress(d) else lib.utf8(s), 0, 0, FSpecial, s)
  }

  function DataToProto(lib: Library, data: ClipboardData): Option<Clipboard> {
    match data
    case Text(s) => Some(PlainToProto(lib, lib.utf8(s), FText))
    case Rtf(s) => Some(PlainToProto(lib, lib.utf8(s), FRtf))
    case Html(s) => Some(PlainToProto(lib, lib.utf8(s), FHtml))
    case Image(a) => Some(ImageToProto(lib, a))
    case Special(s, d) => Some(SpecialToProto(lib, d, s))
    case _ => None
  }

  function CreateMultiClipboards(lib: Library, items: seq<ClipboardData>): seq<Clipboard> {
    if items == [] then []
    else
      match DataToProto(lib, items[0])
      case None => CreateMultiClipboards(lib, items[1..])
      case Some(c) => [c] + CreateMultiClipboards(lib, items[1..])
  }

  // ---- decoding -----------------------------------------------------------

  predicate I32s(c: Clipboard) {
    -0x8000_0000 <= c.width < 0x8000_0000 && -0x8000_0000 <= c.height < 0x8000_0000
  }

  function FromClipboard(lib: Library, c: Clipboard): Option<ClipboardData>
    requires I32s(c)
  {
    var data := if c.compress then lib.decompress(c.content) else c.content;
    match c.format
    case FText => (match lib.fromUtf8(data) case None => None case Some(s) => Some(Text(s)))
    case FRtf => (match lib.fromUtf8(data) case None => None case Some(s) => Some(Rtf(s)))
    case FHtml => (match lib.fromUtf8(data) case None => None case Some(s) => Some(Html(s)))
    case FImageRgba => Some(Image(Rgba(ToUsize(c.width), ToUsize(c.height), data)))
    case FImagePng => Some(Image(Png(data)))
    case FImageSvg => Some(Image(Svg(match lib.fromUtf8(data) case None => "" case Some(s) => s)))
    case FSpecial => Some(Special(c.specialName, data))
    case FUnknown(_) => None
  }

  function FromMultiClipboards(lib: Library, clipboards: seq<Clipboard>): seq<ClipboardData>
    requires forall i :: 0 <= i < |clipboards| ==> I32s(clipboards[i])
  {
    if clipboards == [] then []
    else
      match FromClipboard(lib, clipboards[0])
      case None => FromMultiClipboards(lib, clipboards[1..])
      case Some(d) => [d] + FromMultiClipboards(lib, clipboards[1..])
  }

  // ---- the round trip -----------------------------------------------------

  /** The kinds the protocol carries, in order. */
  function Carried(items: seq<ClipboardData>): seq<ClipboardData> {
    if items == [] then []
    else if items[0].FileUrl? || items[0].Nothing? then Carried(items[1..])
    else [items[0]] + Carried(items[1..])
  }

  predicate Small(x: Usize) {
    x < 0x8000_0000 || x >= 0xFFFF_FFFF_8000_0000
  }

  /** Items that come back unchanged: RGBA images of ordinary dimensions, and special
      items whose data compresses or happens to be the bytes of their name. */
  predicate Faithful(lib: Library, item: ClipboardData) {
    match item
    case Image(Rgba(w, h, _)) => Small(w) && Small(h)
    case Special(s, d) => lib.Compresses(d) || d == lib.utf8(s)
    case _ => true
  }

  /** One item: it comes back as something, and as itself exactly when faithful. */
  lemma ItemRoundTrip(lib: Library, item: ClipboardData)
    requires lib.Lawful() && !item.FileUrl? && !item.Nothing?
    ensures DataToProto(lib, item).Some? && I32s(DataToProto(lib, item).value)
    ensures FromClipboard(lib, DataToProto(lib, item).value).Some?
    ensures FromClipboard(lib, DataToProto(lib, item).value) == Some(item) <==> Faithful(lib, item)
  {
    match item
    case Image(Rgba(w, h, _)) =>
      DimensionSurvives(w);
      DimensionSurvives(h);
    case _ =>
  }

  /** What goes over the wire: the kind of the item, its name if it is a special one, and
      content never longer than the data unless that stands for the name. */
  lemma WireForm(lib: Library, item: ClipboardData)
    requires DataToProto(lib, item).Some?
    ensures var c := DataToProto(lib, item).value;
            && (c.format.FText? <==> item.Text?) && (c.format.FRtf? <==> item.Rtf?) && (c.format.FHtml? <==> item.Html?)
            && (c.format.FImageRgba? <==> item.Image? && item.image.Rgba?)
            && (c.format.FImagePng? <==> item.Image? && item.image.Png?)
            && (c.format.FImageSvg? <==> item.Image? && item.image.Svg?)
            && (c.format.FSpecial? <==> item.Special?) && c.specialName == (if item.Special? then item.name else "")
            && (item.Image? && item.image.Rgba? ==> c.width == ToI32(item.image.width) && c.height == ToI32(item.image.height))
            && (item.Image? && item.image.Png? ==> !c.compress && c.content == item.image.png)
            && (item.Text? ==> |c.content| <= |lib.utf8(item.text)| && (c.compress <==> |c.content| < |lib.utf8(item.text)|))
  {
  }

  /** Content that is no UTF-8 loses a text, and leaves a vector image empty; formats that
      are not known are left out. */
  lemma Unreadable(lib: Library, c: Clipboard)
    requires I32s(c) && lib.fromUtf8(if c.compress then lib.decompress(c.content) else c.content) == None
    ensures var r := FromClipboard(lib, c);
            && (r.None? <==> c.format.FText? || c.format.FRtf? || c.format.FHtml? || c.format.FUnknown?)
            && (c.format.FImageSvg? ==> r == Some(Image(Svg(""))))
  {
  }

  /** Encoding then decoding returns the items without file urls, in order, exactly when
      every item carried is faithful. */
  lemma {:induction false} ClipboardRoundTrip(lib: Library, items: seq<ClipboardData>)
    requires lib.Lawful()
    ensures var sent := CreateMultiClipboards(lib, items);
            && (forall i :: 0 <= i < |sent| ==> I32s(sent[i]))
            && |FromMultiClipboards(lib, sent)| == |Carried(items)|
            && (FromMultiClipboards(lib, sent) == Carried(items) <==>
                  forall i :: 0 <= i < |items| ==> Faithful(lib, items[i]))
  {
    if items != [] {
      ClipboardRoundTrip(lib, items[1..]);
      assert (forall i :: 0 <= i < |items| ==> Faithful(lib, items[i])) <==>
             Faithful(lib, items[0]) && (forall i :: 0 <= i < |items[1..]| ==> Faithful(lib, items[1..][i])) by {
        AllSplits(lib, items);
      }
      if !items[0].FileUrl? && !items[0].Nothing? {
        ItemRoundTrip(lib, items[0]);
        var c, more := DataToProto(lib, items[0]).value, CreateMultiClipboards(lib, items[1..]);
        var sent := CreateMultiClipboards(lib, items);
        assert sent == [c] + more && sent[1..] == more;
        var d, rest := FromClipboard(lib, c).value, FromMultiClipboards(lib, more);
        assert FromMultiClipboards(lib, sent) == [d] + rest;
        HeadTail(d, rest, items[0], Carried(items[1..]));
      }
    }
  }

  lemma HeadTail<T>(a: T, s: seq<T>, b: T, t: seq<T>)
    ensures [a] + s == [b] + t <==> a == b && s == t
  {
    if [a] + s == [b] + t {
      assert ([a] + s)[0] == ([b] + t)[0];
      assert s == ([a] + s)[1..] && t == ([b] + t)[1..];
    }
  }

  lemma AllSplits(lib: Library, items: seq<ClipboardData>)
    requires items != []
    ensures (forall i :: 0 <= i < |items| ==> Faithful(lib, items[i])) <==>
            Faithful(lib, items[0]) && (forall i :: 0 <= i < |items[1..]| ==> Faithful(lib, items[1..][i]))
  {
    if Faithful(lib, items[0]) && (forall i :: 0 <= i < |items[1..]| ==> Faithful(lib, items[1..][i])) {
      forall i | 0 <= i < |items| ensures Faithful(lib, items[i]) {
        assert i > 0 ==> items[i] == items[1..][i - 1];
      }
    }
  }
}
