/**
 * The buyer side of the waitlist (src/controllers/messages/users/buyer.js):
 * joining and leaving a listing's queue, the fan-out of position updates,
 * promotion of the head, and the reply lists offered to a buyer. Store reads
 * arrive as parameters; store writes, sends and context writes are returned
 * as the ordered list of actions the operation issues.
 */
module Buyer {
  import opened Wrappers
  import opened Messages
  import opened Waitlist

  // ------------------------------------------------------------ reply lists

  const MessageSellerReply := Reply(Literal("Message seller"), "message-seller")
  const ShowFaqReply := Reply(ShowFaqTitle, "show-faq")
  const AddQueueReply := Reply(AddQueueTitle, "add-queue")
  const SkipQueueReply := Reply(DontAddQueueTitle, "skip-queue")
  const LeaveQueueReply := Reply(LeaveQueueTitle, "leave-queue")
  const QuitReply := Reply(QuitTitle, "quit")
  const OfferReplies := [Reply(Literal("Yes"), "accept-seller-offer"), Reply(Literal("No"), "decline-seller-offer")]

  const LeftQueueNotice := Literal("Someone from one of the listings you're watching has left the queue.")
  const FirstInLine := Literal("You're now first in line!")
  const OfferPrompt := Literal("Are you happy with the listing's price?")
  const StatusPrompt := Literal("What would you like to do?")

  /**
   * promptNextAction: one quick-reply menu to the buyer, offering to message
   * the seller and, when the listing has an FAQ, to show it.
   */
  function PromptNextAction(recipient: UserId, listing: Listing): (acts: seq<Action>)
    ensures |acts| == 1 && acts[0].SendQuickReplies?
    ensures acts[0].to == recipient && acts[0].prompt == NextPrompt
    ensures var ps := Payloads(acts[0].replies);
      && 1 <= |ps| <= 2
      && ps[0] == "message-seller"
      && ("show-faq" in ps <==> listing.faq.Some?)
      && (|ps| == 2 <==> listing.faq.Some?)
  {
    var replies := [MessageSellerReply] + (if listing.faq.Some? then [ShowFaqReply] else []);
    [SendQuickReplies(recipient, replies, NextPrompt)]
  }

  /**
   * promptInterestedBuyer: the buyer's queue status, then a menu of exactly
   * add-queue, show-faq and skip-queue, in that order, both to the buyer.
   */
  function PromptInterestedBuyer(recipient: UserId, queue: seq<UserId>): (acts: seq<Action>)
    ensures |acts| == 2 && forall a :: a in acts ==> IsMessageTo(a, recipient)
    ensures acts[0] == SendText(recipient, QueueMessage(recipient, queue))
    ensures acts[1].SendQuickReplies? && acts[1].prompt == BuyerQuestion
    ensures Payloads(acts[1].replies) == ["add-queue", "show-faq", "skip-queue"]
  {
    [SendText(recipient, QueueMessage(recipient, queue)),
     SendQuickReplies(recipient, [AddQueueReply, ShowFaqReply, SkipQueueReply], BuyerQuestion)]
  }

  /** promptInterestedBuyerNoQueue: the no-queue notice, then the next-action menu. */
  function PromptInterestedBuyerNoQueue(recipient: UserId, listing: Listing): (acts: seq<Action>)
    ensures |acts| == 2 && forall a :: a in acts ==> IsMessageTo(a, recipient)
    ensures acts[0] == SendText(recipient, NoQueue)
    ensures acts[1..] == PromptNextAction(recipient, listing)
  {
    [SendText(recipient, NoQueue)] + PromptNextAction(recipient, listing)
  }

  /**
   * notifyBuyerStatus: the buyer's queue status, then a menu of exactly
   * show-faq, leave-queue and quit.
   */
  function NotifyBuyerStatus(recipient: UserId, queue: seq<UserId>): (acts: seq<Action>)
    ensures |acts| == 2 && forall a :: a in acts ==> IsMessageTo(a, recipient)
    ensures acts[0] == SendText(recipient, QueueMessage(recipient, queue))
    ensures acts[1].SendQuickReplies? && acts[1].prompt == StatusPrompt
    ensures Payloads(acts[1].replies) == ["show-faq", "leave-queue", "quit"]
  {
    [SendText(recipient, QueueMessage(recipient, queue)),
     SendQuickReplies(recipient, [ShowFaqReply, LeaveQueueReply, QuitReply], StatusPrompt)]
  }

  // ------------------------------------------------------------------ FAQ

  /** The text block formatFAQ builds for one entry. */
  function FaqBlock(e: FaqEntry): string
  {
    "Question: " + e.question + "\n" + "Answer: " + e.answer + "\n\n"
  }

  /** All blocks, one per entry, in order. */
  function FaqBlocks(faq: seq<FaqEntry>): string
  {
    if faq == [] then "" else FaqBlocks(faq[..|faq| - 1]) + FaqBlock(faq[|faq| - 1])
  }

  /**
   * JavaScript's `String.prototype.substring`: each bound is clamped to
   * [0, |s|] (so a negative bound becomes 0) and the two are swapped when
   * the start exceeds the end.
   */
  function JsSubstring(s: string, start: int, end: int): (r: string)
    ensures |r| <= |s|
    ensures start <= 0 && end <= 0 ==> r == ""
  {
    var a := if start < 0 then 0 else if start > |s| then |s| else start;
    var b := if end < 0 then 0 else if end > |s| then |s| else end;
    if a <= b then s[a..b] else s[b..a]
  }

  /**
   * JavaScript's `String.prototype.slice`: a negative bound counts from the
   * end of the string; an empty result when the start passes the end.
   */
  function JsSlice(s: string, start: int, end: int): (r: string)
    ensures end < 0 && 0 <= start && |s| + end >= start ==> r == s[start..|s| + end]
  {
    var a := if start < 0 then (if |s| + start < 0 then 0 else |s| + start)
             else if start > |s| then |s| else start;
    var b := if end < 0 then (if |s| + end < 0 then 0 else |s| + end)
             else if end > |s| then |s| else end;
    if a <= b then s[a..b] else ""
  }

  /**
   * formatFAQ as written: accumulates one block per entry, then takes
   * `substring(0, -2)`, which clamps -2 to 0 and so always yields "".
   */
  method FormatFaq(faq: seq<FaqEntry>) returns (message: string)
    ensures message == JsSubstring(FaqBlocks(faq), 0, -2)
    ensures message == ""
  {
    var formatted := "";
    for i := 0 to |faq|
      invariant formatted == FaqBlocks(faq[..i])
    {
      formatted := formatted + ("Question: " + faq[i].question + "\n") + ("Answer: " + faq[i].answer + "\n\n");
      assert faq[..i + 1][..i] == faq[..i];
    }
    assert faq[..|faq|] == faq;
    message := JsSubstring(formatted, 0, -2);
  }

  /**
   * The FAQ text formatFAQ evidently means to build: every block, minus the
   * trailing blank line (`slice(0, -2)`).
   */
  function TrimmedFaq(faq: seq<FaqEntry>): (r: string)
    ensures faq == [] ==> r == ""
    ensures faq != [] ==> r + "\n\n" == FaqBlocks(faq)
  {
    if faq != [] then
      FaqBlocksShape(faq);
      var s := FaqBlocks(faq);
      assert s[..|s| - 2] + s[|s| - 2..] == s;
      JsSlice(s, 0, -2)
    else
      JsSlice(FaqBlocks(faq), 0, -2)
  }

  lemma {:induction false} FaqBlocksShape(faq: seq<FaqEntry>)
    requires faq != []
    ensures |FaqBlocks(faq)| >= |FaqBlock(faq[0])| >= 2
    ensures FaqBlocks(faq)[|FaqBlocks(faq)| - 2..] == "\n\n"
    ensures FaqBlocks(faq)[..|FaqBlock(faq[0])|] == FaqBlock(faq[0])
    decreases |faq|
  {
    var init := faq[..|faq| - 1];
    var last := FaqBlock(faq[|faq| - 1]);
    assert FaqBlocks(faq) == FaqBlocks(init) + last;
    if init == [] {
      assert faq == [faq[0]];
    } else {
      FaqBlocksShape(init);
      assert init[0] == faq[0];
      var b := FaqBlock(faq[0]);
      assert FaqBlocks(faq)[..|b|] == FaqBlocks(init)[..|b|];
    }
  }

  /**
   * The corrected formatter drops exactly the final "\n\n": for a non-empty FAQ
   * it yields every block, starting with the first question, and an empty FAQ
   * yields "".
   */
  lemma TrimmedFaqDropsFinalBlankLine(faq: seq<FaqEntry>)
    ensures faq == [] ==> TrimmedFaq(faq) == ""
    ensures faq != [] ==> TrimmedFaq(faq) + "\n\n" == FaqBlocks(faq)
    ensures faq != [] ==> |TrimmedFaq(faq)| >= |FaqBlock(faq[0])| - 2
    ensures faq != [] ==> TrimmedFaq(faq)[..10] == "Question: "
  {
    if faq != [] {
      FaqBlocksShape(faq);
      var s := FaqBlocks(faq);
      assert s[..|s| - 2] + s[|s| - 2..] == s;
      var b := FaqBlock(faq[0]);
      assert b[..10] == "Question: ";
      assert |b| >= 12;
      if |s| - 2 < |b| {
        // the first block is the whole text, so it is at most two characters longer
        assert |s| >= |b|;
      }
      assert s[..|s| - 2][..10] == s[..10] == s[..|b|][..10];
    }
  }

  /** formatFAQ as written sends an empty message whatever the FAQ holds. */
  lemma FormatFaqAlwaysEmpty(faq: seq<FaqEntry>)
    requires faq != []
    ensures FaqBlocks(faq) != ""
    ensures JsSubstring(FaqBlocks(faq), 0, -2) == ""
    ensures TrimmedFaq(faq) != JsSubstring(FaqBlocks(faq), 0, -2)
  {
    FaqBlocksShape(faq);
    TrimmedFaqDropsFinalBlankLine(faq);
  }

  // ------------------------------------------------------------- joining

  /**
   * addUserToQueue: idempotent append of the buyer to the listing's queue and
   * of the listing to the buyer's `listings_buy`, each written back only when
   * it changed; then the seller's join notice, the next-action menu to the
   * buyer and the seller's updated-queue notice. `listing` and `interests` are
   * the two snapshots read at the start.
   */
  method AddUserToQueue(recipient: UserId, listingId: ListingId, listing: Listing, interests: seq<ListingId>)
    returns (queue: seq<UserId>, watched: seq<ListingId>, actions: seq<Action>)
    ensures queue == Enqueue(listing.queue, recipient)
    ensures watched == Enqueue(interests, listingId)
    ensures NoDup(listing.queue) ==> NoDup(queue)
    ensures NoDup(interests) ==> NoDup(watched)
    ensures actions ==
      (if queue == listing.queue then [] else [WriteQueue(listingId, queue)])
      + (if watched == interests then [] else [WriteInterests(recipient, watched)])
      + [SendText(listing.seller, Literal("Someone joined the queue for " + listing.title + "!"))]
      + PromptNextAction(recipient, listing)
      + [SendText(listing.seller, SellerQueueMessage(queue, listing.title))]
  {
    queue := listing.queue;
    var updates: seq<Action> := [];
    if recipient !in queue {
      queue := queue + [recipient];
      updates := updates + [WriteQueue(listingId, queue)];
    }
    watched := interests;
    if listingId !in watched {
      watched := watched + [listingId];
      updates := updates + [WriteInterests(recipient, watched)];
    }
    if NoDup(listing.queue) { EnqueueKeepsNoDup(listing.queue, recipient); }
    if NoDup(interests) { EnqueueKeepsNoDup(interests, listingId); }
    actions := updates + [SendText(listing.seller, Literal("Someone joined the queue for " + listing.title + "!"))];
    // promptNextAction is not awaited and sends only after its own read of the
    // listing, so its menu goes out after the first seller notice; only the
    // listing's faq matters to it.
    actions := actions + PromptNextAction(recipient, listing.(queue := queue));
    actions := actions + [SendText(listing.seller, SellerQueueMessage(queue, listing.title))];
  }

  /** A second join by the same buyer changes nothing and writes nothing. */
  lemma RejoinWritesNothing(recipient: UserId, listingId: ListingId, listing: Listing, interests: seq<ListingId>)
    requires recipient in listing.queue && listingId in interests
    ensures Enqueue(listing.queue, recipient) == listing.queue
    ensures Enqueue(interests, listingId) == interests
  {
  }

  // ------------------------------------------------------------- leaving

  /** `indexOf`, by a left-to-right scan. */
  method IndexOf<T(==)>(q: seq<T>, x: T) returns (position: int)
    ensures position == FirstIndexOf(q, x)
    ensures position == -1 <==> x !in q
  {
    position := 0;
    while position < |q| && q[position] != x
      invariant 0 <= position <= |q|
      invariant forall k :: 0 <= k < position ==> q[k] != x
    {
      position := position + 1;
    }
    if position == |q| {
      position := -1;
    } else {
      FirstIndexOfUnique(q, x, position);
    }
  }

  /** The two texts a survivor receives after someone leaves. */
  function SurvivorNotices(id: UserId, queue: seq<UserId>, title: string): (acts: seq<Action>)
    ensures |acts| == 2
    ensures forall a :: a in acts ==> a.SendText? && IsMessageTo(a, id)
  {
    [SendText(id, LeftQueueNotice), SendText(id, UpdatedQueueMessage(id, queue, title))]
  }

  /** The fan-out to `survivors`, in their order, each with its two notices. */
  function LeftNotices(survivors: seq<UserId>, queue: seq<UserId>, title: string): (acts: seq<Action>)
    ensures |acts| == 2 * |survivors|
    ensures forall a :: a in acts ==> a.SendText?
  {
    if survivors == [] then []
    else
      var last := survivors[|survivors| - 1];
      LeftNotices(survivors[..|survivors| - 1], queue, title) + SurvivorNotices(last, queue, title)
  }

  /** The k-th survivor's two texts sit at positions 2k and 2k+1, notice first. */
  lemma {:induction false} LeftNoticesAt(survivors: seq<UserId>, queue: seq<UserId>, title: string, k: nat)
    requires k < |survivors|
    ensures LeftNotices(survivors, queue, title)[2 * k] == SendText(survivors[k], LeftQueueNotice)
    ensures LeftNotices(survivors, queue, title)[2 * k + 1]
            == SendText(survivors[k], UpdatedQueueMessage(survivors[k], queue, title))
    decreases |survivors|
  {
    var init := survivors[..|survivors| - 1];
    if k < |init| {
      LeftNoticesAt(init, queue, title, k);
      assert init[k] == survivors[k];
    }
  }

  /**
   * In a duplicate-free fan-out each survivor receives exactly its two texts,
   * notice first, and nobody else receives anything.
   */
  lemma {:induction false} LeftNoticesPerUser(survivors: seq<UserId>, queue: seq<UserId>, title: string, u: UserId)
    requires NoDup(survivors)
    ensures MessagesTo(LeftNotices(survivors, queue, title), u)
            == if u in survivors then SurvivorNotices(u, queue, title) else []
    decreases |survivors|
  {
    if survivors != [] {
      var init := survivors[..|survivors| - 1];
      var last := survivors[|survivors| - 1];
      assert NoDup(init);
      LeftNoticesPerUser(init, queue, title, u);
      MessagesToAppend(LeftNotices(init, queue, title), SurvivorNotices(last, queue, title), u);
      assert survivors == init + [last];
      assert last !in init by {
        forall k | 0 <= k < |init| ensures init[k] != last {
          assert init[k] == survivors[k];
        }
      }
      SurvivorNoticesTo(last, queue, title, u);
    }
  }

  lemma SurvivorNoticesTo(id: UserId, queue: seq<UserId>, title: string, u: UserId)
    ensures MessagesTo(SurvivorNotices(id, queue, title), u) == if u == id then SurvivorNotices(id, queue, title) else []
  {
    var n := SurvivorNotices(id, queue, title);
    if u == id {
      AllMessagesTo(n, u);
    } else {
      NoMessagesTo(n, u);
    }
  }

  /**
   * The loop of removeUserFromQueue over the queue after the splice: each
   * member is sent the leave notice, then its updated position.
   */
  method NotifySurvivors(remaining: seq<UserId>, title: string) returns (actions: seq<Action>)
    ensures actions == LeftNotices(remaining, remaining, title)
  {
    actions := [];
    for i := 0 to |remaining|
      invariant actions == LeftNotices(remaining[..i], remaining, title)
    {
      var id := remaining[i];
      var text := UpdatedQueueMessage(id, remaining, title);
      actions := actions + [SendText(id, LeftQueueNotice)];
      actions := actions + [SendText(id, text)];
      assert remaining[..i + 1][..i] == remaining[..i];
    }
    assert remaining[..|remaining|] == remaining;
  }

  /**
   * removeUserFromQueue: a buyer not in the queue gets only the not-in-queue
   * text and the queue is untouched (the summary is undefined). Otherwise the
   * first occurrence is spliced out, the queue written back, every survivor
   * sent its two texts in queue order, and the seller summary returned.
   */
  method RemoveUserFromQueue(recipient: UserId, listingId: ListingId, title: string, queue: seq<UserId>)
    returns (remaining: seq<UserId>, actions: seq<Action>, summary: Option<Text>)
    ensures recipient !in queue ==>
      remaining == queue && actions == [SendText(recipient, NotInQueue)] && summary == None
    ensures recipient in queue ==> remaining == Dequeue(queue, recipient)
    ensures recipient in queue ==> |remaining| == |queue| - 1
    ensures recipient in queue ==> actions == [WriteQueue(listingId, remaining)] + LeftNotices(remaining, remaining, title)
    ensures recipient in queue ==> summary == Some(SellerQueueMessage(remaining, title))
  {
    var position := IndexOf(queue, recipient);
    if position < 0 {
      remaining, actions, summary := queue, [SendText(recipient, NotInQueue)], None;
    } else {
      remaining := queue[..position] + queue[position + 1..];
      var notices := NotifySurvivors(remaining, title);
      actions := [WriteQueue(listingId, remaining)] + notices;
      summary := Some(SellerQueueMessage(remaining, title));
    }
  }

  /**
   * After a removal from a duplicate-free queue of size N: 2(N-1) sends, the
   * leaver gets none, each survivor exactly its notice then its update, and
   * the survivors keep their order around the gap.
   */
  lemma RemovalFanOut(recipient: UserId, title: string, queue: seq<UserId>, u: UserId)
    requires NoDup(queue) && recipient in queue
    ensures var r := Dequeue(queue, recipient);
      var fan := LeftNotices(r, r, title);
      && |fan| == 2 * (|queue| - 1)
      && MessagesTo(fan, recipient) == []
      && (u in queue && u != recipient ==> MessagesTo(fan, u) == SurvivorNotices(u, r, title))
  {
    var r := Dequeue(queue, recipient);
    DequeueMembers(queue, recipient, u);
    LeftNoticesPerUser(r, r, title, recipient);
    LeftNoticesPerUser(r, r, title, u);
  }

  // ----------------------------------------------------------- promotion

  /**
   * The body of the queue listener installed by initializeQueueHandler, run
   * with each new value of `listings/<id>/queue`. A null value does nothing;
   * otherwise the user at position 0 is put in `accept-price` for this listing
   * and offered the price. The store never holds an empty array (it reads
   * back as null), hence the precondition.
   */
  function HeadChanged(listingId: ListingId, snapshot: Option<seq<UserId>>): (acts: seq<Action>)
    requires snapshot.None? || snapshot.value != []
    ensures snapshot.None? <==> acts == []
    ensures snapshot.Some? ==> |acts| == 3 && acts[0] == SetContext(snapshot.value[0], "accept-price", listingId)
  {
    match snapshot
    case None => []
    case Some(queue) =>
      var firstInLine := queue[0];
      [SetContext(firstInLine, "accept-price", listingId),
       SendText(firstInLine, FirstInLine),
       SendQuickReplies(firstInLine, OfferReplies, OfferPrompt)]
  }

  /**
   * A non-null value promotes its head and no one else: the only context
   * write is `accept-price` for `queue[0]`, every effect goes to `queue[0]`,
   * and the offer's options are exactly accept and decline.
   */
  lemma HeadChangedPromotesHeadOnly(listingId: ListingId, queue: seq<UserId>)
    requires queue != []
    ensures var acts := HeadChanged(listingId, Some(queue));
      && ContextWrites(acts) == [SetContext(queue[0], "accept-price", listingId)]
      && (forall a :: a in acts ==> Addressee(a) == Some(queue[0]))
      && MessagesTo(acts, queue[0]) == acts[1..]
      && acts[2].SendQuickReplies?
      && Payloads(acts[2].replies) == ["accept-seller-offer", "decline-seller-offer"]
  {
    var head := queue[0];
    var acts := HeadChanged(listingId, Some(queue));
    var write := SetContext(head, "accept-price", listingId);
    var rest := [SendText(head, FirstInLine), SendQuickReplies(head, OfferReplies, OfferPrompt)];
    assert acts == [write] + rest;
    WriteThenMessages(write, rest, head);
    OfferPayloads();
  }

  /** The offer's buttons carry exactly the accept and decline payloads, in that order. */
  lemma OfferPayloads()
    ensures Payloads(OfferReplies) == ["accept-seller-offer", "decline-seller-offer"]
  {
    var ps := Payloads(OfferReplies);
    assert |ps| == 2 && ps[0] == "accept-seller-offer" && ps[1] == "decline-seller-offer";
  }

  /**
   * Promotion as the listener evidently means it: act only when the identity of
   * the head changes, on the queue as it was before and after a write.
   */
  function PromoteOnChange(listingId: ListingId, before: seq<UserId>, after: seq<UserId>): (acts: seq<Action>)
    ensures after == [] || (before != [] && before[0] == after[0]) ==> acts == []
    ensures after != [] && (before == [] || before[0] != after[0]) ==>
      ContextWrites(acts) == [SetContext(after[0], "accept-price", listingId)]
      && (forall a :: a in acts ==> Addressee(a) == Some(after[0]))
  {
    if after != [] && (before == [] || before[0] != after[0]) then
      HeadChangedPromotesHeadOnly(listingId, after);
      HeadChanged(listingId, Some(after))
    else []
  }

  /**
   * The listener as written re-promotes an unchanged head: when a second buyer
   * joins behind the first, the first is put back into `accept-price` and
   * offered the price again, although the head did not change.
   */
  lemma HeadChangedRepromotesUnchangedHead(listingId: ListingId, b1: UserId, b2: UserId)
    requires b1 != b2
    ensures Enqueue([b1], b2) == [b1, b2]
    ensures ContextWrites(HeadChanged(listingId, Some(Enqueue([b1], b2)))) == [SetContext(b1, "accept-price", listingId)]
    ensures PromoteOnChange(listingId, [b1], Enqueue([b1], b2)) == []
  {
    HeadChangedPromotesHeadOnly(listingId, [b1, b2]);
  }

  /**
   * When the head of a duplicate-free waitlist of two or more leaves, the
   * listener promotes exactly the former second in line.
   */
  lemma HeadLeavingPromotesSecond(listingId: ListingId, queue: seq<UserId>)
    requires NoDup(queue) && |queue| >= 2
    ensures Dequeue(queue, queue[0]) != [] && Dequeue(queue, queue[0])[0] == queue[1]
    ensures ContextWrites(HeadChanged(listingId, Some(Dequeue(queue, queue[0]))))
            == [SetContext(queue[1], "accept-price", listingId)]
    ensures ContextWrites(PromoteOnChange(listingId, queue, Dequeue(queue, queue[0])))
            == [SetContext(queue[1], "accept-price", listingId)]
  {
    FirstIndexOfUnique(queue, queue[0], 0);
    HeadChangedPromotesHeadOnly(listingId, Dequeue(queue, queue[0]));
  }

  /**
   * Join, join, leave on an empty waitlist, under the corrected promotion
   * PromoteOnChange: b1 is promoted on joining, b2's join promotes nobody, and
   * b1's leave promotes exactly b2. (The listener as written promotes b1 again
   * on b2's join; see HeadChangedRepromotesUnchangedHead.)
   */
  lemma {:induction false} JoinJoinLeavePromotes(listingId: ListingId, b1: UserId, b2: UserId)
    requires b1 != b2
    ensures var q1 := Enqueue([], b1);
      var q2 := Enqueue(q1, b2);
      var q3 := Dequeue(q2, b1);
      && q1 == [b1] && q2 == [b1, b2] && q3 == [b2]
      && ContextWrites(PromoteOnChange(listingId, [], q1)) == [SetContext(b1, "accept-price", listingId)]
      && PromoteOnChange(listingId, q1, q2) == []
      && ContextWrites(PromoteOnChange(listingId, q2, q3)) == [SetContext(b2, "accept-price", listingId)]
  {
    var q2 := [b1, b2];
    assert FirstIndexOf(q2, b1) == 0;
    assert Dequeue(q2, b1) == q2[1..] == [b2];
  }
}
