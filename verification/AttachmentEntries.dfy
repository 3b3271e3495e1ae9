/**
 Which attachments are embedded, which are only referred to and why, and where the
 listing stops (`collectAttachmentBlocks` in `src/tools/tickets.ts`): decided from
 sizes, counts and weights alone.
 */
module AttachmentEntries {
  import opened Options
  import opened JsText
  import opened Attachments

  /** What one more block would bring the response to, the notice that may have to close it included. */
  function With(b: Budget, weight: nat): nat { b.used + weight + b.reserve }

  function ImageWeight(contentType: Text, payload: nat): nat { BlockCost(ImageBlock([], contentType)) + payload }

  function ReferenceWeight(a: Attachment): nat { BlockCost(TextBlock(FormatReference(a))) }

  /** Worth downloading: an image, small enough, with an image still allowed and room for it as reported. */
  predicate Downloads(l: Limits, a: Attachment, embedded: nat, b: Budget) {
    && IsImage(a) && a.size <= l.imageBytes && embedded < l.images
    && With(b, ImageWeight(a.contentType, 4 * ((a.size + 2) / 3)) + ReferenceWeight(a)) <= l.responseBytes
  }

  /** Downloaded, and as downloaded there is still room for it. */
  predicate Embeds(l: Limits, a: Attachment, d: Download, embedded: nat, b: Budget) {
    && Downloads(l, a, embedded, b) && d.Fetched?
    && With(b, ImageWeight(d.contentType, |d.data|) + ReferenceWeight(a)) <= l.responseBytes
  }

  /** Why this attachment is only referred to: for another kind of file nothing needs saying. */
  predicate Explains(l: Limits, a: Attachment, d: Download, embedded: nat, b: Budget, why: Text) {
    if !IsImage(a) then why == []
    else if a.size > l.imageBytes then
      why == DASHED + (Literal("skipped: exceeds ") + l.imageMb + Literal(" MB per-image limit"))
    else if embedded >= l.images then
      why == DASHED + (Literal("skipped: max ") + Decimal(l.images) + Literal(" embedded images reached"))
    else if Downloads(l, a, embedded, b) && d.Refused? then
      why == DASHED + (Literal("download failed: ") + Decimal(d.status) + Literal(" ") + d.statusText)
    else if Downloads(l, a, embedded, b) && d.Broken? then why == DASHED + Literal("download failed")
    else why == DASHED + BudgetReached(l)
  }

  lemma {:induction false} WeightOfOne(block: Block)
    ensures TotalCost([block]) == BlockCost(block)
  {
    hide BlockCost;
    assert [block][1..] == [];
  }

  lemma {:induction false} WeightOfTwo(image: Block, text: Block)
    ensures TotalCost([image, text]) == BlockCost(image) + BlockCost(text)
  {
    hide BlockCost;
    WeightOfOne(text);
    assert [image, text][1..] == [text];
  }

  lemma {:induction false} ImageWeighs(data: Base64, contentType: Text)
    ensures BlockCost(ImageBlock(data, contentType)) == ImageWeight(contentType, |data|)
  {
  }

  lemma {:induction false} ReasonsAreGiven(l: Limits, a: Attachment, embedded: nat, b: Budget)
    ensures var reason := ImageSkipReason(l, a, embedded, FormatReference(a), b);
            && (IsImage(a) ==> (reason.None? <==> Downloads(l, a, embedded, b)))
            && (reason.Some? ==> reason.value != [])
            && (reason.Some? && IsImage(a) ==> forall d :: Explains(l, a, d, embedded, b, DASHED + reason.value))
  {
    hide BlockCost, FormatReference, Decimal, IsImage;
    ReasonsSaySomething();
  }

  lemma {:induction false} ReasonsSaySomething()
    ensures Literal("skipped: exceeds ") != [] && Literal("skipped: max ") != []
    ensures Literal("skipped: response budget of ") != []
  {
  }

  /** What is produced before it is weighed. */
  lemma {:induction false} ProducedExactly(l: Limits, a: Attachment, d: Download, embedded: nat, b: Budget)
    ensures var produced := Produced(l, a, d, embedded, b);
            if Downloads(l, a, embedded, b) && d.Fetched? then
              produced == [ImageBlock(d.data, d.contentType), TextBlock(FormatReference(a))]
            else exists why :: Explains(l, a, d, embedded, b, why) && produced == [TextBlock(FormatReference(a) + why)]
  {
    hide BlockCost, FormatReference, Decimal, IsImage, ImageSkipReason, Literal;
    ReasonsAreGiven(l, a, embedded, b);
    var reference := FormatReference(a);
    if !IsImage(a) {
      assert reference + [] == reference;
      assert Explains(l, a, d, embedded, b, []);
    } else if !Downloads(l, a, embedded, b) {
      var reason := ImageSkipReason(l, a, embedded, reference, b).value;
      assert reference + DASHED + reason == reference + (DASHED + reason);
    } else if d.Refused? {
      var said := Literal("download failed: ") + Decimal(d.status) + Literal(" ") + d.statusText;
      assert reference + DASHED + said == reference + (DASHED + said);
      assert Explains(l, a, d, embedded, b, DASHED + said);
    } else if d.Broken? {
      assert reference + DASHED + Literal("download failed") == reference + (DASHED + Literal("download failed"));
      assert Explains(l, a, d, embedded, b, DASHED + Literal("download failed"));
    }
  }

  /** The reference with its explanation. */
  function Referred(a: Attachment, why: Text): Block { TextBlock(FormatReference(a) + why) }

  lemma {:induction false} OneReason(l: Limits, a: Attachment, d: Download, embedded: nat, b: Budget, why: Text, other: Text)
    requires Explains(l, a, d, embedded, b, why) && Explains(l, a, d, embedded, b, other)
    ensures why == other
  {
    hide Downloads, Decimal, Literal, IsImage;
  }

  lemma {:induction false} FallbackExplained(l: Limits, a: Attachment, d: Download, embedded: nat, b: Budget)
    requires Downloads(l, a, embedded, b) && d.Fetched?
    ensures Explains(l, a, d, embedded, b, DASHED + BudgetReached(l))
    ensures ReferenceBlock(FormatReference(a), Some(BudgetReached(l))) == Referred(a, DASHED + BudgetReached(l))
  {
    hide BlockCost, FormatReference, Decimal, IsImage, Literal;
    ReasonsSaySomething();
    assert FormatReference(a) + DASHED + BudgetReached(l) == FormatReference(a) + (DASHED + BudgetReached(l));
  }

  /**
   What one attachment comes to. It is embedded, image before reference, exactly when it
   is worth downloading and, as downloaded, fits; otherwise there is one reason, and its
   reference with that reason is listed exactly if that fits, image or not.
   */
  lemma {:induction false} EntryExactly(l: Limits, a: Attachment, d: Download, embedded: nat, b: Budget, why: Text)
    requires Explains(l, a, d, embedded, b, why)
    ensures var entry := Entry(l, a, d, embedded, b);
            if Embeds(l, a, d, embedded, b) then entry == Some([ImageBlock(d.data, d.contentType), TextBlock(FormatReference(a))])
            else if With(b, BlockCost(Referred(a, why))) <= l.responseBytes then entry == Some([Referred(a, why)])
            else entry == None
  {
    hide BlockCost, FormatReference, Produced, TotalCost, Explains, BudgetReached, ReferenceBlock, Downloads, ImageWeight;
    var reference, produced := FormatReference(a), Produced(l, a, d, embedded, b);
    ProducedExactly(l, a, d, embedded, b);
    WeightOfOne(Referred(a, why));
    if Downloads(l, a, embedded, b) && d.Fetched? {
      WeightOfTwo(ImageBlock(d.data, d.contentType), TextBlock(reference));
      ImageWeighs(d.data, d.contentType);
      FallbackExplained(l, a, d, embedded, b);
      OneReason(l, a, d, embedded, b, why, DASHED + BudgetReached(l));
      assert produced[0].ImageBlock?;
    } else {
      var said :| Explains(l, a, d, embedded, b, said) && produced == [TextBlock(reference + said)];
      OneReason(l, a, d, embedded, b, why, said);
      assert produced == [Referred(a, why)];
    }
  }

  /** There always is a reason to give, used or not. */
  lemma {:induction false} SomeReason(l: Limits, a: Attachment, d: Download, embedded: nat, b: Budget) returns (why: Text)
    ensures Explains(l, a, d, embedded, b, why)
  {
    hide Downloads, Decimal, IsImage, Literal;
    why :=
      if !IsImage(a) then []
      else if a.size > l.imageBytes then DASHED + (Literal("skipped: exceeds ") + l.imageMb + Literal(" MB per-image limit"))
      else if embedded >= l.images then
        DASHED + (Literal("skipped: max ") + Decimal(l.images) + Literal(" embedded images reached"))
      else if Downloads(l, a, embedded, b) && d.Refused? then
        DASHED + (Literal("download failed: ") + Decimal(d.status) + Literal(" ") + d.statusText)
      else if Downloads(l, a, embedded, b) && d.Broken? then DASHED + Literal("download failed")
      else DASHED + BudgetReached(l);
  }

  // ----- The whole listing -------------------------------------------------------------------

  /** The budget after these entries. */
  function Spent(b: Budget, entries: seq<seq<Block>>): Budget { b.(used := b.used + TotalCost(Flat(entries))) }

  /** Entry `k` of the listing is what its attachment comes to after the entries before it. */
  ghost predicate AsDue(l: Limits, a: Attachment, d: Download, before: seq<seq<Block>>, embedded: nat, b: Budget,
                        entry: Option<seq<Block>>) {
    var images := embedded + ImageCount(Flat(before));
    forall why :: Explains(l, a, d, images, Spent(b, before), why) ==>
      entry == if Embeds(l, a, d, images, Spent(b, before)) then
                 Some([ImageBlock(d.data, d.contentType), TextBlock(FormatReference(a))])
               else if With(Spent(b, before), BlockCost(Referred(a, why))) <= l.responseBytes then Some([Referred(a, why)])
               else None
  }

  lemma {:induction false} EntryIsDue(l: Limits, a: Attachment, d: Download, embedded: nat, b: Budget)
    ensures AsDue(l, a, d, [], embedded, b, Entry(l, a, d, embedded, b))
  {
    hide Explains, Downloads, ImageWeight, BlockCost, Entry, FormatReference;
    NothingCostsNothing();
    FlatOfNothing();
    NoImages();
    assert Spent(b, []) == b;
    forall why | Explains(l, a, d, embedded, b, why)
      ensures Entry(l, a, d, embedded, b)
           == if Embeds(l, a, d, embedded, b) then Some([ImageBlock(d.data, d.contentType), TextBlock(FormatReference(a))])
              else if With(b, BlockCost(Referred(a, why))) <= l.responseBytes then Some([Referred(a, why)])
              else None
    {
      EntryExactly(l, a, d, embedded, b, why);
    }
  }

  lemma {:induction false} DueAfterOne(l: Limits, a: Attachment, d: Download, first: seq<Block>, before: seq<seq<Block>>,
                                       embedded: nat, b: Budget, entry: Option<seq<Block>>)
    requires AsDue(l, a, d, before, embedded + ImageCount(first), b.(used := b.used + TotalCost(first)), entry)
    ensures AsDue(l, a, d, [first] + before, embedded, b, entry)
  {
    hide Explains, Embeds, BlockCost, FormatReference, TotalCost, ImageCount;
    assert ([first] + before)[1..] == before;
    CostConcat(first, Flat(before));
    ImagesConcat(first, Flat(before));
    assert Spent(b, [first] + before) == Spent(b.(used := b.used + TotalCost(first)), before);
  }

  /**
   The listing goes down the attachments in order: each entry is what its attachment
   comes to with the images and bytes of those before, and the first attachment for
   which not even a reference fits is where it stops.
   */
  lemma {:induction false} ListingExactly(l: Limits, attachments: seq<Attachment>, downloads: seq<Download>, i: nat,
                                          embedded: nat, b: Budget)
    requires i <= |attachments| == |downloads|
    ensures var entries := Entries(l, attachments, downloads, i, embedded, b);
            && (forall k :: 0 <= k < |entries| ==>
                  AsDue(l, attachments[i + k], downloads[i + k], entries[..k], embedded, b, Some(entries[k])))
            && (i + |entries| < |attachments| ==>
                  AsDue(l, attachments[i + |entries|], downloads[i + |entries|], entries, embedded, b, None))
    decreases |attachments| - i
  {
    hide AsDue, Entry, TotalCost, HasImage;
    if i < |attachments| {
      var a, d := attachments[i], downloads[i];
      var entry := Entry(l, a, d, embedded, b);
      EntryIsDue(l, a, d, embedded, b);
      if entry.Some? {
        var first := entry.value;
        EntryIsAbout(l, a, d, embedded, b);
        var e, spent := embedded + ImageCount(first), b.(used := b.used + TotalCost(first));
        var rest := Entries(l, attachments, downloads, i + 1, e, spent);
        ListingExactly(l, attachments, downloads, i + 1, e, spent);
        var entries := Entries(l, attachments, downloads, i, embedded, b);
        assert entries == [first] + rest;
        forall k | 0 <= k < |entries|
          ensures AsDue(l, attachments[i + k], downloads[i + k], entries[..k], embedded, b, Some(entries[k]))
        {
          if k > 0 {
            assert entries[..k] == [first] + rest[..k - 1] && entries[k] == rest[k - 1];
            assert attachments[i + k] == attachments[i + 1 + (k - 1)];
            DueAfterOne(l, attachments[i + k], downloads[i + k], first, rest[..k - 1], embedded, b, Some(entries[k]));
          } else {
            assert entries[..0] == [];
          }
        }
        if i + |entries| < |attachments| {
          assert attachments[i + |entries|] == attachments[i + 1 + |rest|];
          DueAfterOne(l, attachments[i + |entries|], downloads[i + |entries|], first, rest, embedded, b, None);
        }
      }
    }
  }
}
