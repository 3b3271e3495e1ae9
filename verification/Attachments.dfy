/**
 A ticket's attachments in one response (`collectAttachmentBlocks` in
 `src/tools/tickets.ts`): images embedded while they fit a byte budget, references
 after that, and a count of what no longer fits.
 */
module Attachments {
  import opened Options
  import opened JsText
  import Json

  // ----- Weights -------------------------------------------------------------------------

  predicate IsBase64Unit(u: CodeUnit) { IsDigit(u) || IsUpper(u) || IsLower(u) || u in {43, SLASH, 61} }

  type Base64 = t: Text | forall u :: u in t ==> IsBase64Unit(u) witness []

  datatype Block = TextBlock(text: Text) | ImageBlock(data: Base64, mimeType: Text)

  /** What `JSON.stringify` writes for a block. */
  function Serialized(b: Block): Text {
    match b
    case TextBlock(text) => Literal("{\"type\":\"text\",\"text\":") + Json.Stringify(text) + Literal("}")
    case ImageBlock(data, mimeType) =>
      Literal("{\"type\":\"image\",\"data\":") + Json.Stringify(data)
      + (Literal(",\"mimeType\":") + Json.Stringify(mimeType) + Literal("}"))
  }

  /** The UTF-8 bytes of a code unit; a surrogate, always paired in JSON text, is half of four. */
  function UnitBytes(u: CodeUnit): nat {
    if u < 0x80 then 1 else if u < 0x800 || Json.IsHigh(u) || Json.IsLow(u) then 2 else 3
  }

  function ByteLength(t: Text): nat {
    if t == [] then 0 else UnitBytes(t[0]) + ByteLength(t[1..])
  }

  /** The code's measure of a block: an image without its payload, whose length is added back. */
  function BlockCost(b: Block): nat {
    match b
    case TextBlock(_) => ByteLength(Serialized(b)) + 1
    case ImageBlock(data, mimeType) => ByteLength(Serialized(ImageBlock([], mimeType))) + |data| + 1
  }

  function TotalCost(blocks: seq<Block>): nat {
    if blocks == [] then 0 else BlockCost(blocks[0]) + TotalCost(blocks[1..])
  }

  /** The elements of a JSON array, a comma between any two. */
  function Elements(blocks: seq<Block>): Text
    requires blocks != []
  {
    if |blocks| == 1 then Serialized(blocks[0])
    else Serialized(blocks[0]) + [COMMA] + Elements(blocks[1..])
  }

  /** The response's content array as it goes over the wire. */
  function ContentJson(blocks: seq<Block>): Text
    requires blocks != []
  {
    [91] + Elements(blocks) + [93]
  }

  lemma {:induction false} BytesConcat(a: Text, b: Text)
    ensures ByteLength(a + b) == ByteLength(a) + ByteLength(b)
  {
    if a == [] {
      assert a + b == b;
    } else {
      assert (a + b)[1..] == a[1..] + b;
      BytesConcat(a[1..], b);
    }
  }

  lemma {:induction false} PlainUnit(u: CodeUnit, rest: Text)
    requires IsBase64Unit(u)
    ensures Json.Escape([u] + rest) == [u] + Json.Escape(rest)
  {
    assert ([u] + rest)[1..] == rest;
    assert Json.EscapeUnit(u) == [u];
  }

  /** Base64 survives JSON unescaped, one byte a character. */
  lemma {:induction false} PayloadIsPlain(data: Base64)
    ensures Json.Escape(data) == data && ByteLength(data) == |data|
  {
    if data != [] {
      var first, rest: Base64 := data[0], data[1..];
      assert IsBase64Unit(first) && data == [first] + rest;
      PayloadIsPlain(rest);
      PlainUnit(first, rest);
    }
  }

  lemma {:induction false} QuotedBytes(t: Text)
    ensures ByteLength(Json.Stringify(t)) == ByteLength(Json.Escape(t)) + 2
  {
    hide ByteLength, Json.Escape;
    BytesConcat([QUOTE], Json.Escape(t));
    BytesConcat([QUOTE] + Json.Escape(t), [QUOTE]);
    OneByte(QUOTE);
  }

  lemma {:induction false} OneByte(u: CodeUnit)
    requires u < 0x80
    ensures ByteLength([u]) == 1
  {
    assert [u][1..] == [];
  }

  /** Leaving the payload out and adding its length back measures the block exactly. */
  lemma {:induction false} BlockCostIsExact(b: Block)
    ensures BlockCost(b) == ByteLength(Serialized(b)) + 1
  {
    hide ByteLength, Json.Stringify, Json.Escape;
    if b.ImageBlock? {
      var head := Literal("{\"type\":\"image\",\"data\":");
      var tail := Literal(",\"mimeType\":") + Json.Stringify(b.mimeType) + Literal("}");
      ImageBytes(head, b.data, tail);
      ImageBytes(head, [], tail);
    }
  }

  lemma {:induction false} ImageBytes(head: Text, data: Base64, tail: Text)
    ensures ByteLength(head + Json.Stringify(data) + tail) == ByteLength(head) + |data| + 2 + ByteLength(tail)
  {
    hide ByteLength, Json.Stringify, Json.Escape;
    BytesConcat(head + Json.Stringify(data), tail);
    BytesConcat(head, Json.Stringify(data));
    QuotedBytes(data);
    PayloadIsPlain(data);
  }

  /** Accumulating costs is exact: they sum to the array's bytes, its opening bracket aside. */
  lemma {:induction false} CostsSumToTheArray(blocks: seq<Block>)
    requires blocks != []
    ensures ByteLength(ContentJson(blocks)) == 1 + TotalCost(blocks)
  {
    hide ByteLength;
    var elements := Elements(blocks);
    ElementBytes(blocks);
    BytesConcat([91], elements);
    BytesConcat([91] + elements, [93]);
    OneByte(91);
    OneByte(93);
  }

  lemma {:induction false} ElementBytes(blocks: seq<Block>)
    requires blocks != []
    ensures ByteLength(Elements(blocks)) + 1 == TotalCost(blocks)
  {
    hide ByteLength, BlockCost, Serialized;
    BlockCostIsExact(blocks[0]);
    if |blocks| == 1 {
      assert TotalCost(blocks[1..]) == 0;
    } else {
      ElementBytes(blocks[1..]);
      BytesConcat(Serialized(blocks[0]) + [COMMA], Elements(blocks[1..]));
      BytesConcat(Serialized(blocks[0]), [COMMA]);
      OneByte(COMMA);
    }
  }

  // ----- One attachment -------------------------------------------------------------------

  datatype Attachment = Attachment(fileName: Text, id: nat, contentType: Text, size: nat, contentUrl: Text)

  /** What a download comes back with, if one is made. */
  datatype Download =
    | Fetched(data: Base64, contentType: Text)
    | Refused(status: nat, statusText: Text)
    | Broken

  /** The configured caps, two of them also as the messages spell them. */
  datatype Limits = Limits(imageBytes: nat, images: nat, responseBytes: nat, imageMb: Text, responseMb: Text)

  const DASHED: Text := Literal(" \U{2014} ")

  function FormatReference(a: Attachment): Text {
    Literal("**") + a.fileName + Literal("** (id ") + Decimal(a.id) + Literal(", ") + a.contentType
    + Literal(", ") + Decimal(a.size) + Literal(" bytes)") + DASHED + a.contentUrl
  }

  function BudgetReached(l: Limits): Text {
    Literal("skipped: response budget of ") + l.responseMb + Literal(" MB reached")
  }

  function ReferenceBlock(reference: Text, reason: Option<Text>): Block {
    TextBlock(if reason.Some? && reason.value != [] then reference + DASHED + reason.value else reference)
  }

  function TruncationNotice(l: Limits, omitted: nat): Block {
    TextBlock(Decimal(omitted) + (Literal(" further attachments omitted: response budget of ") + l.responseMb + Literal(" MB reached")))
  }

  /** Bytes spent so far, and kept back for the widest notice. */
  datatype Budget = Budget(used: nat, reserve: nat)

  predicate Fits(l: Limits, b: Budget, cost: nat) { b.used + cost + b.reserve <= l.responseBytes }

  function Base64Length(bytes: nat): nat { 4 * ((bytes + 2) / 3) }

  /** What embedding would weigh, from the reported size. */
  function EmbeddedCost(a: Attachment, reference: Text): nat {
    BlockCost(ImageBlock([], a.contentType)) + Base64Length(a.size) + BlockCost(TextBlock(reference))
  }

  function ImageSkipReason(l: Limits, a: Attachment, embedded: nat, reference: Text, b: Budget): Option<Text> {
    if a.size > l.imageBytes then Some(Literal("skipped: exceeds ") + l.imageMb + Literal(" MB per-image limit"))
    else if embedded >= l.images then
      Some(Literal("skipped: max ") + Decimal(l.images) + Literal(" embedded images reached"))
    else if !Fits(l, b, EmbeddedCost(a, reference)) then Some(BudgetReached(l))
    else None
  }

  function EmbedOrExplain(d: Download, reference: Text): seq<Block> {
    match d
    case Fetched(data, contentType) => [ImageBlock(data, contentType), TextBlock(reference)]
    case Refused(status, statusText) =>
      [TextBlock(reference + DASHED + (Literal("download failed: ") + Decimal(status) + Literal(" ") + statusText))]
    case Broken => [TextBlock(reference + DASHED + Literal("download failed"))]
  }

  predicate IsImage(a: Attachment) { Literal("image/") <= a.contentType }

  function Produced(l: Limits, a: Attachment, d: Download, embedded: nat, b: Budget): seq<Block> {
    var reference := FormatReference(a);
    var reason := if IsImage(a) then ImageSkipReason(l, a, embedded, reference, b) else None;
    if IsImage(a) && reason.None? then EmbedOrExplain(d, reference) else [ReferenceBlock(reference, reason)]
  }

  predicate HasImage(blocks: seq<Block>) { exists k :: 0 <= k < |blocks| && blocks[k].ImageBlock? }

  function OverflowFallback(l: Limits, produced: seq<Block>, reference: Text, b: Budget): Option<Block> {
    if !HasImage(produced) then None
    else
      var fallback := ReferenceBlock(reference, Some(BudgetReached(l)));
      if Fits(l, b, BlockCost(fallback)) then Some(fallback) else None
  }

  /** The blocks one attachment adds, or nothing when the listing stops at it. */
  function Entry(l: Limits, a: Attachment, d: Download, embedded: nat, b: Budget): Option<seq<Block>> {
    var produced := Produced(l, a, d, embedded, b);
    if Fits(l, b, TotalCost(produced)) then Some(produced)
    else
      var fallback := OverflowFallback(l, produced, FormatReference(a), b);
      if fallback.Some? then Some([fallback.value]) else None
  }

  // ----- The listing -------------------------------------------------------------------------

  /** The entries from attachment `i` on, up to the first that adds nothing. */
  function Entries(l: Limits, attachments: seq<Attachment>, downloads: seq<Download>, i: nat, embedded: nat, b: Budget)
    : (entries: seq<seq<Block>>)
    requires i <= |attachments| == |downloads|
    ensures |entries| <= |attachments| - i
    decreases |attachments| - i
  {
    if i == |attachments| then []
    else
      var entry := Entry(l, attachments[i], downloads[i], embedded, b);
      if entry.None? then []
      else
        [entry.value] + Entries(l, attachments, downloads, i + 1,
                                embedded + (if HasImage(entry.value) then 1 else 0),
                                b.(used := b.used + TotalCost(entry.value)))
  }

  function Flat(entries: seq<seq<Block>>): seq<Block> {
    if entries == [] then [] else entries[0] + Flat(entries[1..])
  }

  /** Every entry, and the notice counting the attachments without one. */
  function Listing(l: Limits, given: nat, entries: seq<seq<Block>>): seq<Block>
    requires |entries| <= given
  {
    Flat(entries) + if |entries| < given then [TruncationNotice(l, given - |entries|)] else []
  }

  function StartBudget(l: Limits, attachments: seq<Attachment>, consumed: nat): Budget {
    Budget(consumed, BlockCost(TruncationNotice(l, |attachments|)))
  }

  function AllEntries(l: Limits, attachments: seq<Attachment>, downloads: seq<Download>, consumed: nat)
    : (entries: seq<seq<Block>>)
    requires |attachments| == |downloads|
    ensures |entries| <= |attachments|
  {
    Entries(l, attachments, downloads, 0, 0, StartBudget(l, attachments, consumed))
  }

  method CollectAttachmentBlocks(l: Limits, attachments: seq<Attachment>, downloads: seq<Download>, consumed: nat)
    returns (blocks: seq<Block>)
    requires |attachments| == |downloads|
    ensures blocks == Listing(l, |attachments|, AllEntries(l, attachments, downloads, consumed))
  {
    hide BlockCost, TruncationNotice, Produced, Fits, HasImage, TotalCost, OverflowFallback;
    blocks := [];
    var embedded := 0;
    var b := StartBudget(l, attachments, consumed);
    var index := 0;
    ghost var all := AllEntries(l, attachments, downloads, consumed);
    ghost var done: seq<seq<Block>> := [];
    while index < |attachments|
      invariant index <= |attachments| && |done| == index
      invariant all == done + Entries(l, attachments, downloads, index, embedded, b)
      invariant blocks == Flat(done)
    {
      var produced := Produced(l, attachments[index], downloads[index], embedded, b);
      var cost := TotalCost(produced);
      if !Fits(l, b, cost) {
        var fallback := OverflowFallback(l, produced, FormatReference(attachments[index]), b);
        if fallback.None? {
          blocks := blocks + [TruncationNotice(l, |attachments| - index)];
          assert all == done;
          return;
        }
        FallbackIsText(l, produced, FormatReference(attachments[index]), b);
        FlatAppend(done, [fallback.value]);
        done := done + [[fallback.value]];
        blocks := blocks + [fallback.value];
        b := b.(used := b.used + BlockCost(fallback.value));
      } else {
        FlatAppend(done, produced);
        done := done + [produced];
        blocks := blocks + produced;
        b := b.(used := b.used + cost);
        if HasImage(produced) { embedded := embedded + 1; }
      }
      index := index + 1;
    }
    assert all == done;
  }

  lemma {:induction false} FallbackIsText(l: Limits, produced: seq<Block>, reference: Text, b: Budget)
    requires OverflowFallback(l, produced, reference, b).Some?
    ensures var fallback := OverflowFallback(l, produced, reference, b).value;
            !HasImage([fallback]) && TotalCost([fallback]) == BlockCost(fallback) && Fits(l, b, BlockCost(fallback))
  {
    hide BlockCost, Fits;
    var fallback := OverflowFallback(l, produced, reference, b).value;
    assert [fallback][1..] == [];
  }

  lemma {:induction false} FlatAppend(entries: seq<seq<Block>>, entry: seq<Block>)
    ensures Flat(entries + [entry]) == Flat(entries) + entry
  {
    if entries == [] {
      assert entries + [entry] == [entry] && [entry][1..] == [];
    } else {
      assert (entries + [entry])[1..] == entries[1..] + [entry];
      FlatAppend(entries[1..], entry);
    }
  }

  // ----- What a listing promises -----------------------------------------------------------

  lemma {:induction false} CostConcat(a: seq<Block>, b: seq<Block>)
    ensures TotalCost(a + b) == TotalCost(a) + TotalCost(b)
  {
    hide BlockCost;
    if a == [] {
      assert a + b == b;
    } else {
      assert (a + b)[1..] == a[1..] + b;
      CostConcat(a[1..], b);
    }
  }

  lemma {:induction false} NoticeCost(l: Limits, omitted: nat)
    ensures BlockCost(TruncationNotice(l, omitted)) == BlockCost(TruncationNotice(l, 0)) - 1 + |Decimal(omitted)|
  {
    hide ByteLength, Literal, Decimal, Json.Escape;
    NoticeBytes(l, omitted);
    NoticeBytes(l, 0);
    assert |Decimal(0)| == 1 by { SingleDigit(0); }
  }

  lemma {:induction false} SingleDigit(n: nat)
    requires n < 10
    ensures |Decimal(n)| == 1
  {
  }

  lemma {:induction false} NoticeBytes(l: Limits, omitted: nat)
    ensures var rest := Literal(" further attachments omitted: response budget of ") + l.responseMb + Literal(" MB reached");
            BlockCost(TruncationNotice(l, omitted))
            == ByteLength(Literal("{\"type\":\"text\",\"text\":")) + |Decimal(omitted)| + ByteLength(Json.Escape(rest)) + 3
               + ByteLength(Literal("}"))
  {
    hide ByteLength, Literal, Decimal, Json.Escape, Json.Stringify;
    var digits := Decimal(omitted);
    var rest := Literal(" further attachments omitted: response budget of ") + l.responseMb + Literal(" MB reached");
    var head, tail := Literal("{\"type\":\"text\",\"text\":"), Literal("}");
    BytesConcat(head + Json.Stringify(digits + rest), tail);
    BytesConcat(head, Json.Stringify(digits + rest));
    QuotedBytes(digits + rest);
    DigitsArePlain(digits, rest);
    BytesConcat(digits, Json.Escape(rest));
  }

  lemma {:induction false} DigitsArePlain(digits: Text, rest: Text)
    requires forall u :: u in digits ==> IsDigit(u)
    ensures Json.Escape(digits + rest) == digits + Json.Escape(rest) && ByteLength(digits) == |digits|
  {
    hide Json.Escape;
    if digits == [] {
      assert digits + rest == rest;
    } else {
      var first, others := digits[0], digits[1..];
      assert IsDigit(first);
      assert digits + rest == [first] + (others + rest) && digits == [first] + others;
      assert forall u :: u in others ==> u in digits;
      DigitsArePlain(others, rest);
      PlainUnit(first, others + rest);
    }
  }

  lemma {:induction false} EntryFits(l: Limits, a: Attachment, d: Download, embedded: nat, b: Budget)
    requires Entry(l, a, d, embedded, b).Some?
    ensures Fits(l, b, TotalCost(Entry(l, a, d, embedded, b).value))
  {
    hide Produced, OverflowFallback, HasImage;
    var produced := Produced(l, a, d, embedded, b);
    if !Fits(l, b, TotalCost(produced)) { FallbackIsText(l, produced, FormatReference(a), b); }
  }

  lemma {:induction false} EntriesFit(l: Limits, attachments: seq<Attachment>, downloads: seq<Download>, i: nat,
                                      embedded: nat, b: Budget)
    requires i <= |attachments| == |downloads|
    requires b.used + b.reserve <= l.responseBytes
    ensures b.used + TotalCost(Flat(Entries(l, attachments, downloads, i, embedded, b))) + b.reserve <= l.responseBytes
    decreases |attachments| - i
  {
    hide Entry, HasImage, BlockCost, TotalCost;
    assert TotalCost([]) == 0 by { NothingCostsNothing(); }
    if i < |attachments| {
      var entry := Entry(l, attachments[i], downloads[i], embedded, b);
      if entry.Some? {
        EntryFits(l, attachments[i], downloads[i], embedded, b);
        var e := embedded + if HasImage(entry.value) then 1 else 0;
        var spent := b.(used := b.used + TotalCost(entry.value));
        EntriesFit(l, attachments, downloads, i + 1, e, spent);
        CostConcat(entry.value, Flat(Entries(l, attachments, downloads, i + 1, e, spent)));
      }
    }
  }

  lemma {:induction false} NothingCostsNothing()
    ensures TotalCost([]) == 0
  {
  }

  /**
   Whatever the downloads return, the response stays within its budget, the final
   notice included, exactly when what the caller already spent leaves room for the
   notice of every attachment omitted (or there is no attachment at all).
   */
  lemma {:induction false} WithinBudgetExactly(l: Limits, attachments: seq<Attachment>, downloads: seq<Download>, consumed: nat)
    requires |attachments| == |downloads|
    ensures var total := consumed + TotalCost(Listing(l, |attachments|, AllEntries(l, attachments, downloads, consumed)));
            total <= l.responseBytes <==>
              consumed + (if attachments == [] then 0 else BlockCost(TruncationNotice(l, |attachments|))) <= l.responseBytes
  {
    hide Entries, Entry, BlockCost, TruncationNotice, TotalCost, HasImage, Flat;
    var given, b := |attachments|, StartBudget(l, attachments, consumed);
    var entries := AllEntries(l, attachments, downloads, consumed);
    var shown := |entries|;
    NothingCostsNothing();
    FlatOfNothing();
    if given > 0 && b.used + b.reserve > l.responseBytes {
      NothingFits(l, attachments, downloads, b);
      ListingCost(l, given, entries);
    } else if given > 0 {
      EntriesFit(l, attachments, downloads, 0, 0, b);
      ListingCost(l, given, entries);
      NoticeCost(l, given);
      NoticeCost(l, given - shown);
      DecimalLengthMonotone(given - shown, given);
    } else {
      ListingCost(l, given, entries);
    }
  }

  lemma {:induction false} FlatOfNothing()
    ensures Flat([]) == []
  {
  }

  lemma {:induction false} NothingFits(l: Limits, attachments: seq<Attachment>, downloads: seq<Download>, b: Budget)
    requires 0 < |attachments| == |downloads| && b.used + b.reserve > l.responseBytes
    ensures Entries(l, attachments, downloads, 0, 0, b) == []
  {
    hide Produced, HasImage, TotalCost, BlockCost;
  }

  lemma {:induction false} ListingCost(l: Limits, given: nat, entries: seq<seq<Block>>)
    requires |entries| <= given
    ensures TotalCost(Listing(l, given, entries))
            == TotalCost(Flat(entries))
               + if |entries| < given then BlockCost(TruncationNotice(l, given - |entries|)) else 0
  {
    hide BlockCost, TruncationNotice, Flat;
    if |entries| < given {
      var notice := TruncationNotice(l, given - |entries|);
      CostConcat(Flat(entries), [notice]);
      assert [notice][1..] == [];
    } else {
      assert Listing(l, given, entries) == Flat(entries);
    }
  }

  /** How many of these blocks embed an image. */
  function ImageCount(blocks: seq<Block>): nat {
    if blocks == [] then 0 else (if blocks[0].ImageBlock? then 1 else 0) + ImageCount(blocks[1..])
  }

  lemma {:induction false} ImagesConcat(a: seq<Block>, b: seq<Block>)
    ensures ImageCount(a + b) == ImageCount(a) + ImageCount(b)
  {
    if a == [] {
      assert a + b == b;
    } else {
      assert (a + b)[1..] == a[1..] + b;
      ImagesConcat(a[1..], b);
    }
  }

  /** An entry is about its attachment: at most one image, then a text that starts with its reference. */
  predicate About(entry: seq<Block>, a: Attachment) {
    && 1 <= |entry| <= 2
    && (|entry| == 2 ==> entry[0].ImageBlock? && IsImage(a))
    && entry[|entry| - 1].TextBlock?
    && FormatReference(a) <= entry[|entry| - 1].text
  }

  lemma {:induction false} ProducedIsAbout(l: Limits, a: Attachment, d: Download, embedded: nat, b: Budget)
    ensures var produced := Produced(l, a, d, embedded, b);
            && About(produced, a)
            && ImageCount(produced) == (if |produced| == 2 then 1 else 0)
            && (HasImage(produced) <==> |produced| == 2)
            && (|produced| == 2 ==> embedded < l.images && a.size <= l.imageBytes)
  {
    hide BlockCost, FormatReference, Fits, Literal, IsImage;
    var produced := Produced(l, a, d, embedded, b);
    assert forall x: Text, y: Text, z: Text :: x <= x + y && x <= x + y + z;
    if |produced| == 2 {
      assert produced[0].ImageBlock?;
      assert produced[1..][1..] == [];
      assert produced[1].TextBlock? && ImageCount(produced[1..]) == 0;
    } else {
      assert |produced| == 1 && produced[0].TextBlock?;
      assert produced[1..] == [];
    }
  }

  lemma {:induction false} EntryIsAbout(l: Limits, a: Attachment, d: Download, embedded: nat, b: Budget)
    requires Entry(l, a, d, embedded, b).Some?
    ensures var entry := Entry(l, a, d, embedded, b).value;
            && About(entry, a)
            && ImageCount(entry) == (if HasImage(entry) then 1 else 0)
            && (HasImage(entry) ==> embedded < l.images && a.size <= l.imageBytes)
  {
    hide BlockCost, FormatReference, TotalCost, Fits, Literal, IsImage, Produced, HasImage;
    var produced := Produced(l, a, d, embedded, b);
    ProducedIsAbout(l, a, d, embedded, b);
    if Entry(l, a, d, embedded, b) != Some(produced) {
      FallbackIsText(l, produced, FormatReference(a), b);
      var entry := Entry(l, a, d, embedded, b).value;
      assert entry[1..] == [];
    }
  }

  /**
   Conservation: the first attachments each have their entry, in order and about
   themselves, and the notice counts exactly the others. No more images are embedded
   than allowed, and none whose reported size passes the per-image limit.
   */
  lemma {:induction false} NothingIsSilentlyDropped(l: Limits, attachments: seq<Attachment>, downloads: seq<Download>,
                                                     i: nat, embedded: nat, b: Budget)
    requires i <= |attachments| == |downloads| && embedded <= l.images
    ensures var entries := Entries(l, attachments, downloads, i, embedded, b);
            && (forall k :: 0 <= k < |entries| ==>
                  About(entries[k], attachments[i + k])
                  && (HasImage(entries[k]) ==> attachments[i + k].size <= l.imageBytes))
            && embedded + ImageCount(Flat(entries)) <= l.images
    decreases |attachments| - i
  {
    hide Entry, HasImage, TotalCost, About, ImageCount;
    NoImages();
    if i < |attachments| {
      var entry := Entry(l, attachments[i], downloads[i], embedded, b);
      if entry.Some? {
        EntryIsAbout(l, attachments[i], downloads[i], embedded, b);
        var e := embedded + if HasImage(entry.value) then 1 else 0;
        var rest := Entries(l, attachments, downloads, i + 1, e, b.(used := b.used + TotalCost(entry.value)));
        NothingIsSilentlyDropped(l, attachments, downloads, i + 1, e, b.(used := b.used + TotalCost(entry.value)));
        ImagesConcat(entry.value, Flat(rest));
        var entries := [entry.value] + rest;
        forall k | 0 <= k < |entries|
          ensures About(entries[k], attachments[i + k])
          ensures HasImage(entries[k]) ==> attachments[i + k].size <= l.imageBytes
        {
          if k > 0 { assert entries[k] == rest[k - 1] && attachments[i + k] == attachments[i + 1 + (k - 1)]; }
        }
      }
    }
  }

  lemma {:induction false} NoImages()
    ensures ImageCount([]) == 0
  {
  }

  /**
   The estimate is exact: an image whose download is what Zendesk reported, and that
   no reason skips, is embedded; only a download that differs is ever replaced.
   */
  lemma {:induction false} HonestDownloadIsEmbedded(l: Limits, a: Attachment, d: Download, embedded: nat, b: Budget)
    requires IsImage(a) && ImageSkipReason(l, a, embedded, FormatReference(a), b).None?
    requires d.Fetched? && d.contentType == a.contentType && |d.data| == Base64Length(a.size)
    ensures Entry(l, a, d, embedded, b) == Some([ImageBlock(d.data, d.contentType), TextBlock(FormatReference(a))])
  {
    hide ByteLength, Literal, FormatReference, Json.Stringify;
    var reference := FormatReference(a);
    var image, text := ImageBlock(d.data, d.contentType), TextBlock(reference);
    var blocks := [image, text];
    assert blocks[1..] == [text] && [text][1..] == [];
    assert TotalCost([text]) == BlockCost(text);
    assert TotalCost(blocks) == BlockCost(image) + TotalCost([text]);
    assert BlockCost(image) == BlockCost(ImageBlock([], a.contentType)) + |d.data|;
  }
}
