/**
 * The conversation router for listing links and quick replies
 * (src/controllers/messages/handlers.js): which prompt a user gets when they
 * open a listing, and which effects each quick-reply payload produces,
 * including the cases of the payload switch that fall through to the next.
 */
module Handlers {
  import opened Wrappers
  import opened Messages
  import opened Waitlist
  import opened Buyer

  // ------------------------------------------------------------ listings

  /**
   * handleListing, given the snapshot of the linked listing: a missing listing
   * asks the user to categorize themselves; the seller is shown their listing
   * or asked to set up a queue; any other user joins the queue prompt, gets a
   * status, or is told there is no queue.
   */
  function HandleListing(recipient: UserId, listingId: ListingId, snapshot: Option<Listing>): (acts: seq<Action>)
    ensures acts != []
    ensures forall a :: a in acts ==> Addressee(a) == Some(recipient)
  {
    match snapshot
    case None => [PromptUserCategorization(recipient, listingId)]
    case Some(listing) =>
      if listing.seller != recipient then
        if listing.hasQueue then
          if recipient !in listing.queue then
            [SetContext(recipient, "buyer-add-queue", listingId)] + PromptInterestedBuyer(recipient, listing.queue)
          else
            [SetContext(recipient, "buyer-status", listingId)] + NotifyBuyerStatus(recipient, listing.queue)
        else
          [SendText(recipient, NoQueue)]
      else if listing.hasQueue then
        [PromptSellerListing(recipient, listing)]
      else
        [PromptSetupQueue(recipient, listingId)]
  }

  /**
   * The decision table of handleListing. At most one context is written, and
   * exactly one when a non-seller opens a listing that has a queue: joining
   * (`buyer-add-queue`) when not queued yet, `buyer-status` otherwise. The
   * seller and users of listings without a queue get no context write.
   */
  lemma HandleListingDecisions(recipient: UserId, listingId: ListingId, snapshot: Option<Listing>)
    ensures var acts := HandleListing(recipient, listingId, snapshot);
      && (snapshot.None? ==> acts == [PromptUserCategorization(recipient, listingId)])
      && (|ContextWrites(acts)| == 1 <==>
            snapshot.Some? && snapshot.value.seller != recipient && snapshot.value.hasQueue)
      && |ContextWrites(acts)| <= 1
      && (snapshot.Some? && snapshot.value.seller == recipient ==>
            acts == [if snapshot.value.hasQueue then PromptSellerListing(recipient, snapshot.value)
                     else PromptSetupQueue(recipient, listingId)])
      && (snapshot.Some? && snapshot.value.seller != recipient && !snapshot.value.hasQueue ==>
            acts == [SendText(recipient, NoQueue)])
      && (snapshot.Some? && snapshot.value.seller != recipient && snapshot.value.hasQueue ==>
            ContextWrites(acts) == [SetContext(recipient,
                                               if recipient in snapshot.value.queue then "buyer-status"
                                               else "buyer-add-queue", listingId)]
            && acts[1..] == (if recipient in snapshot.value.queue
                             then NotifyBuyerStatus(recipient, snapshot.value.queue)
                             else PromptInterestedBuyer(recipient, snapshot.value.queue)))
  {
    var acts := HandleListing(recipient, listingId, snapshot);
    match snapshot
    case None =>
    case Some(listing) =>
      if listing.seller != recipient && listing.hasQueue {
        var prompt := if recipient in listing.queue then NotifyBuyerStatus(recipient, listing.queue)
                      else PromptInterestedBuyer(recipient, listing.queue);
        var write := [acts[0]];
        assert acts == write + prompt;
        ContextWritesAppend(write, prompt);
        NoContextWrites(prompt);
      }
  }

  // -------------------------------------------------------- quick replies

  /** The labels of the payload switch, in the order they are written. */
  datatype Case =
    | BuyerCase | SellerCase | SetupQueueCase | AddQueueCase | SkipQueueCase | LeaveQueueCase
    | ShowListingsCase | ShowInterestsCase | ShowFaqCase | QuitCase | DefaultCase

  /** The payload tokens that have a `case` of their own. */
  const CaseLabels := {"buyer", "seller", "setup-queue", "add-queue", "skip-queue", "leave-queue",
                       "show-listings", "show-interests", "show-faq", "quit"}

  /** The label the switch jumps to for a payload. */
  function CaseOf(payload: string): (c: Case)
    ensures c == DefaultCase <==> payload !in CaseLabels
  {
    if payload == "buyer" then BuyerCase
    else if payload == "seller" then SellerCase
    else if payload == "setup-queue" then SetupQueueCase
    else if payload == "add-queue" then AddQueueCase
    else if payload == "skip-queue" then SkipQueueCase
    else if payload == "leave-queue" then LeaveQueueCase
    else if payload == "show-listings" then ShowListingsCase
    else if payload == "show-interests" then ShowInterestsCase
    else if payload == "show-faq" then ShowFaqCase
    else if payload == "quit" then QuitCase
    else DefaultCase
  }

  /** Position of a label in the switch. */
  function Rank(c: Case): nat
  {
    match c
    case BuyerCase => 0
    case SellerCase => 1
    case SetupQueueCase => 2
    case AddQueueCase => 3
    case SkipQueueCase => 4
    case LeaveQueueCase => 5
    case ShowListingsCase => 6
    case ShowInterestsCase => 7
    case ShowFaqCase => 8
    case QuitCase => 9
    case DefaultCase => 10
  }

  /** A case body that ends with neither `return` nor `break` runs into the next label. */
  predicate FallsThrough(c: Case)
    ensures FallsThrough(c) <==> Rank(ShowListingsCase) < Rank(c) < Rank(QuitCase)
  {
    c == ShowInterestsCase || c == ShowFaqCase
  }

  /** The label written after `c`. */
  function Next(c: Case): (n: Case)
    requires FallsThrough(c)
    ensures Rank(n) == Rank(c) + 1
  {
    if c == ShowInterestsCase then ShowFaqCase else QuitCase
  }

  /** The case bodies executed when the switch enters at `c`, in order. */
  function Entered(c: Case): (cs: seq<Case>)
    ensures cs != [] && cs[0] == c
    decreases 10 - Rank(c)
  {
    [c] + (if FallsThrough(c) then Entered(Next(c)) else [])
  }

  /**
   * The effects a case body issues synchronously. The show-faq body only
   * starts a read of the listing; what it sends comes from the read's callback.
   */
  function CaseBody(c: Case, recipient: UserId, listingId: ListingId): (acts: seq<Action>)
    ensures |acts| <= 2
    ensures forall a :: a in acts ==> !a.SetContext?
    ensures forall a :: a in acts && !a.CreateListing? && !a.AddListing? ==> Addressee(a) == Some(recipient)
  {
    match c
    case BuyerCase => [SendText(recipient, NoQueue)]
    case SellerCase => [AddListing(recipient, listingId), PromptSetupQueue(recipient, listingId)]
    case SetupQueueCase =>
      [CreateListing(listingId, recipient, true, [], [], 0), PromptStart(recipient, DidAdd)]
    case AddQueueCase => [CallAddUserToQueue(recipient, listingId), CallPromptInterestedBuyer(recipient)]
    case SkipQueueCase => [CallPromptInterestedBuyer(recipient)]
    case LeaveQueueCase => [CallRemoveUserFromQueue(recipient, listingId)]
    case ShowListingsCase => [SendText(recipient, NotImplemented)]
    case ShowInterestsCase => [SendText(recipient, NotImplemented)]
    case ShowFaqCase => []
    case QuitCase => [SendText(recipient, NotImplemented)]
    case DefaultCase => [SendText(recipient, NotImplemented)]
  }

  /** The bodies of `cs`, one after another; no case body writes a context. */
  function Run(cs: seq<Case>, recipient: UserId, listingId: ListingId): (acts: seq<Action>)
    ensures ContextWrites(acts) == []
    ensures forall a :: a in acts && !a.CreateListing? && !a.AddListing? ==> Addressee(a) == Some(recipient)
  {
    if cs == [] then []
    else
      var body := CaseBody(cs[0], recipient, listingId);
      var rest := Run(cs[1..], recipient, listingId);
      ContextWritesAppend(body, rest);
      NoContextWrites(body);
      body + rest
  }

  /**
   * The callback of the show-faq read: nothing for a missing listing;
   * otherwise the FAQ text (or the no-FAQ notice), then the interested-buyer
   * prompt with the listing's queue.
   */
  function ShowFaqCallback(recipient: UserId, snapshot: Option<Listing>): (acts: seq<Action>)
    ensures snapshot.None? ==> acts == []
    ensures forall a :: a in acts ==> IsMessageTo(a, recipient)
    ensures snapshot.Some? ==>
      && |acts| == 3
      && MessagesTo(acts, recipient) == acts
      && acts[0] == SendText(recipient, match snapshot.value.faq
                                        case Some(faq) => Literal(TrimmedFaq(faq))
                                        case None => NoFaq)
      && acts[1..] == PromptInterestedBuyer(recipient, snapshot.value.queue)
  {
    match snapshot
    case None => []
    case Some(listing) =>
      var text := match listing.faq case Some(faq) => Literal(TrimmedFaq(faq)) case None => NoFaq;
      var prompt := PromptInterestedBuyer(recipient, listing.queue);
      var acts := [SendText(recipient, text)] + prompt;
      AllMessagesTo(acts, recipient);
      acts
  }

  /**
   * The router sends the corrected FAQ text: for a non-empty FAQ it is not the
   * empty string that formatFAQ as written returns.
   */
  lemma ShowFaqCallbackSendsTrimmedFaq(recipient: UserId, listing: Listing)
    requires listing.faq.Some? && listing.faq.value != []
    ensures ShowFaqCallback(recipient, Some(listing))[0] == SendText(recipient, Literal(TrimmedFaq(listing.faq.value)))
    ensures ShowFaqCallback(recipient, Some(listing))[0]
            != SendText(recipient, Literal(JsSubstring(FaqBlocks(listing.faq.value), 0, -2)))
  {
    FormatFaqAlwaysEmpty(listing.faq.value);
  }

  /**
   * handleQuickReply. The sender's context must exist (its `data` is
   * destructured before the payload is looked at); its listing id selects
   * the listing. The switch's synchronous effects come first; when the
   * show-faq body was entered, the effects of its read callback follow, since
   * the callback cannot run before the handler returns. `snapshot` is what
   * that read returns.
   */
  function HandleQuickReply(recipient: UserId, payload: string, contexts: map<UserId, Context>,
                            snapshot: Option<Listing>): (acts: seq<Action>)
    requires recipient in contexts
    ensures ContextWrites(acts) == []
    ensures forall a :: a in acts && !a.CreateListing? && !a.AddListing? ==> Addressee(a) == Some(recipient)
  {
    Dispatch(CaseOf(payload), recipient, contexts[recipient].listingId, snapshot)
  }

  /** The effects of entering the switch at `c`: its bodies, then the show-faq callback if entered. */
  function Dispatch(c: Case, recipient: UserId, listingId: ListingId, snapshot: Option<Listing>): (acts: seq<Action>)
    ensures ContextWrites(acts) == []
    ensures forall a :: a in acts && !a.CreateListing? && !a.AddListing? ==> Addressee(a) == Some(recipient)
  {
    var cs := Entered(c);
    var now := Run(cs, recipient, listingId);
    var later := if ShowFaqCase in cs then ShowFaqCallback(recipient, snapshot) else [];
    ContextWritesAppend(now, later);
    NoContextWrites(later);
    now + later
  }

  /** Entering at show-faq runs its empty body and quit's, which sends one "Not implemented.". */
  lemma RunFromShowFaq(recipient: UserId, l: ListingId)
    ensures ShowFaqCase in Entered(ShowFaqCase)
    ensures Run(Entered(ShowFaqCase), recipient, l) == [SendText(recipient, NotImplemented)]
  {
    var cs := Entered(ShowFaqCase);
    assert cs == [ShowFaqCase, QuitCase];
    assert cs[1..][1..] == [];
    assert Run(cs[1..], recipient, l) == CaseBody(QuitCase, recipient, l) + Run([], recipient, l);
    assert Run(cs, recipient, l) == [] + Run(cs[1..], recipient, l);
  }

  /** show-faq has no `break`: it runs into quit, then the read's callback follows. */
  lemma ShowFaqFallsIntoQuit(recipient: UserId, l: ListingId, snapshot: Option<Listing>)
    ensures Dispatch(ShowFaqCase, recipient, l, snapshot)
            == [SendText(recipient, NotImplemented)] + ShowFaqCallback(recipient, snapshot)
  {
    RunFromShowFaq(recipient, l);
  }

  /**
   * show-interests has no `break` either: its "Not implemented." is followed by
   * the show-faq body, quit's "Not implemented.", then the read's callback.
   */
  lemma ShowInterestsFallsThrough(recipient: UserId, l: ListingId, snapshot: Option<Listing>)
    ensures var ni := SendText(recipient, NotImplemented);
      Dispatch(ShowInterestsCase, recipient, l, snapshot) == [ni, ni] + ShowFaqCallback(recipient, snapshot)
  {
    var ni := SendText(recipient, NotImplemented);
    var cs := Entered(ShowInterestsCase);
    var e := Entered(ShowFaqCase);
    var cb := ShowFaqCallback(recipient, snapshot);
    RunFromShowFaq(recipient, l);
    assert cs == [ShowInterestsCase] + e;
    RunCons(ShowInterestsCase, e, recipient, l);
    assert Run(cs, recipient, l) == [ni, ni];
    assert ShowFaqCase in cs;
    assert Dispatch(ShowInterestsCase, recipient, l, snapshot) == Run(cs, recipient, l) + cb;
  }

  /** Running one more label first prepends its body. */
  lemma RunCons(c: Case, cs: seq<Case>, recipient: UserId, l: ListingId)
    ensures Run([c] + cs, recipient, l) == CaseBody(c, recipient, l) + Run(cs, recipient, l)
  {
    assert ([c] + cs)[0] == c && ([c] + cs)[1..] == cs;
  }

  /** The labels that end in `return`: their own effects only. */
  lemma ReturningCaseEffects(c: Case, recipient: UserId, l: ListingId, snapshot: Option<Listing>)
    requires Rank(c) <= 5
    ensures var acts := Dispatch(c, recipient, l, snapshot);
      && (c == BuyerCase ==> acts == [SendText(recipient, NoQueue)])
      && (c == SellerCase ==> acts == [AddListing(recipient, l), PromptSetupQueue(recipient, l)])
      && (c == SetupQueueCase ==>
            acts == [CreateListing(l, recipient, true, [], [], 0), PromptStart(recipient, DidAdd)])
      && (c == AddQueueCase ==> acts == [CallAddUserToQueue(recipient, l), CallPromptInterestedBuyer(recipient)])
      && (c == SkipQueueCase ==> acts == [CallPromptInterestedBuyer(recipient)])
      && (c == LeaveQueueCase ==> acts == [CallRemoveUserFromQueue(recipient, l)])
  {
    StopsAtOwnCase(c, recipient, l, snapshot);
  }

  /** show-listings, quit and the default label send one "Not implemented." and break. */
  lemma BreakingCaseEffects(c: Case, recipient: UserId, l: ListingId, snapshot: Option<Listing>)
    requires c == ShowListingsCase || c == QuitCase || c == DefaultCase
    ensures Dispatch(c, recipient, l, snapshot) == [SendText(recipient, NotImplemented)]
  {
    StopsAtOwnCase(c, recipient, l, snapshot);
  }

  /** A label whose body returns or breaks contributes its own body and nothing else. */
  lemma StopsAtOwnCase(c: Case, recipient: UserId, l: ListingId, snapshot: Option<Listing>)
    requires !FallsThrough(c)
    ensures Dispatch(c, recipient, l, snapshot) == CaseBody(c, recipient, l)
  {
    var cs := Entered(c);
    assert cs == [c];
    assert Run(cs, recipient, l) == CaseBody(c, recipient, l) + Run([], recipient, l);
    assert ShowFaqCase !in cs;
  }

  /**
   * The payloads whose case ends in a `return`: each produces exactly its own
   * case's effects.
   */
  lemma ReturningPayloadEffects(recipient: UserId, payload: string, contexts: map<UserId, Context>,
                                snapshot: Option<Listing>)
    requires recipient in contexts
    ensures var l := contexts[recipient].listingId;
      var acts := HandleQuickReply(recipient, payload, contexts, snapshot);
      && (payload == "buyer" ==> acts == [SendText(recipient, NoQueue)])
      && (payload == "seller" ==> acts == [AddListing(recipient, l), PromptSetupQueue(recipient, l)])
      && (payload == "setup-queue" ==>
            acts == [CreateListing(l, recipient, true, [], [], 0), PromptStart(recipient, DidAdd)])
      && (payload == "add-queue" ==>
            acts == [CallAddUserToQueue(recipient, l), CallPromptInterestedBuyer(recipient)])
      && (payload == "skip-queue" ==> acts == [CallPromptInterestedBuyer(recipient)])
      && (payload == "leave-queue" ==> acts == [CallRemoveUserFromQueue(recipient, l)])
  {
    var c := CaseOf(payload);
    if Rank(c) <= 5 {
      ReturningCaseEffects(c, recipient, contexts[recipient].listingId, snapshot);
    }
  }

  /**
   * The payloads that fall through. `show-interests` falls into show-faq and
   * quit: two "Not implemented." texts, then the FAQ callback's effects.
   * `show-faq` falls into quit: one "Not implemented.", then the callback.
   */
  lemma FallThroughPayloadEffects(recipient: UserId, payload: string, contexts: map<UserId, Context>,
                                  snapshot: Option<Listing>)
    requires recipient in contexts
    ensures var acts := HandleQuickReply(recipient, payload, contexts, snapshot);
      var ni := SendText(recipient, NotImplemented);
      && (payload == "show-interests" ==> acts == [ni, ni] + ShowFaqCallback(recipient, snapshot))
      && (payload == "show-faq" ==> acts == [ni] + ShowFaqCallback(recipient, snapshot))
  {
    var l := contexts[recipient].listingId;
    if payload == "show-interests" {
      ShowInterestsFallsThrough(recipient, l, snapshot);
    } else if payload == "show-faq" {
      ShowFaqFallsIntoQuit(recipient, l, snapshot);
    }
  }

  /**
   * `show-listings`, `quit` and every unrecognised payload produce exactly
   * one "Not implemented." text.
   */
  lemma NotImplementedPayloadEffects(recipient: UserId, payload: string, contexts: map<UserId, Context>,
                                     snapshot: Option<Listing>)
    requires recipient in contexts
    requires payload == "show-listings" || payload == "quit" || payload !in CaseLabels
    ensures HandleQuickReply(recipient, payload, contexts, snapshot) == [SendText(recipient, NotImplemented)]
  {
    var c := CaseOf(payload);
    BreakingCaseEffects(c, recipient, contexts[recipient].listingId, snapshot);
  }
}
