/**
 * The vocabulary shared by the buyer flow and the router: user and listing
 * identifiers, stored listing records, per-user conversation contexts, the
 * texts and quick replies sent over the chat platform, and the abstract
 * effects (sends, context writes, store writes, calls into collaborators)
 * that an operation issues, in the order it issues them.
 */
module Messages {
  import opened Wrappers

  /** Platform-assigned user identifier (Messenger PSID). */
  type UserId = string
  /** Key of a listing under `listings/` in the store. */
  type ListingId = string

  datatype FaqEntry = FaqEntry(question: string, answer: string)

  /**
   * A listing record as read from `listings/<id>`. A missing `queue` reads as
   * the empty queue (both `queue = []` and `queue || []` in the source); a
   * missing `faq` is `None` (JavaScript falsy), any stored array is `Some`.
   */
  datatype Listing = Listing(
    seller: UserId,
    hasQueue: bool,
    queue: seq<UserId>,
    faq: Option<seq<FaqEntry>>,
    price: int,
    title: string)

  /** The conversation context of one user: its state token and the listing id in its data. */
  datatype Context = Context(state: string, listingId: ListingId)

  /**
   * Message text. The helpers that render queue positions and the entries of
   * copy.json are not part of this model, so they stay symbolic: two texts are
   * equal exactly when they come from the same helper with the same arguments.
   */
  datatype Text =
    | Literal(s: string)
    | Copy(key: string)
    | QueueMessage(user: UserId, queue: seq<UserId>)
    | UpdatedQueueMessage(user: UserId, queue: seq<UserId>, title: string)
    | SellerQueueMessage(queue: seq<UserId>, title: string)

  /** One quick-reply button: the title shown and the payload token sent back. */
  datatype Reply = Reply(title: Text, payload: string)

  /** An effect issued by an operation. */
  datatype Action =
    | SendText(to: UserId, text: Text)
    | SendQuickReplies(to: UserId, replies: seq<Reply>, prompt: Text)
    | SetContext(user: UserId, state: string, listingId: ListingId)
    | WriteQueue(listingId: ListingId, queue: seq<UserId>)
    | WriteInterests(user: UserId, interests: seq<ListingId>)
    | CreateListing(listingId: ListingId, seller: UserId, hasQueue: bool,
                    queue: seq<UserId>, faq: seq<FaqEntry>, price: int)
      // calls into the seller and user modules, which are not part of this model
    | AddListing(user: UserId, listingId: ListingId)
    | PromptUserCategorization(to: UserId, listingId: ListingId)
    | PromptSellerListing(to: UserId, record: Listing)
    | PromptSetupQueue(to: UserId, listingId: ListingId)
    | PromptStart(to: UserId, text: Text)
      // calls into the buyer flow whose arguments the router gets wrong
    | CallAddUserToQueue(to: UserId, listingId: ListingId)
    | CallPromptInterestedBuyer(to: UserId)
    | CallRemoveUserFromQueue(to: UserId, listingId: ListingId)

  // Entries of copy.json, by key.
  const ShowFaqTitle := Copy("buyer.show_faq")
  const NextPrompt := Copy("general.next")
  const AddQueueTitle := Copy("buyer.add_queue")
  const DontAddQueueTitle := Copy("buyer.dont_add_queue")
  const BuyerQuestion := Copy("queue.buyer_question")
  const NoQueue := Copy("buyer.no_queue")
  const LeaveQueueTitle := Copy("buyer.leave_queue")
  const QuitTitle := Copy("buyer.quit")
  const NotInQueue := Copy("buyer.not_in_queue")
  const NoFaq := Copy("buyer.no_faq")
  const DidAdd := Copy("queue.did_add")

  const NotImplemented := Literal("Not implemented.")

  /** The payload tokens of a reply list, in order. */
  function Payloads(replies: seq<Reply>): (ps: seq<string>)
    ensures |ps| == |replies|
    ensures forall k :: 0 <= k < |ps| ==> ps[k] == replies[k].payload
  {
    if replies == [] then [] else [replies[0].payload] + Payloads(replies[1..])
  }

  /**
   * The user a send, prompt, context write or buyer-flow call is addressed to;
   * None for writes to the store.
   */
  function Addressee(a: Action): Option<UserId>
  {
    match a
    case SetContext(user, _, _) => Some(user)
    case WriteQueue(_, _) => None
    case WriteInterests(_, _) => None
    case CreateListing(_, _, _, _, _, _) => None
    case AddListing(_, _) => None
    case SendText(to, _) => Some(to)
    case SendQuickReplies(to, _, _) => Some(to)
    case PromptUserCategorization(to, _) => Some(to)
    case PromptSellerListing(to, _) => Some(to)
    case PromptSetupQueue(to, _) => Some(to)
    case PromptStart(to, _) => Some(to)
    case CallAddUserToQueue(to, _) => Some(to)
    case CallPromptInterestedBuyer(to) => Some(to)
    case CallRemoveUserFromQueue(to, _) => Some(to)
  }

  predicate IsMessageTo(a: Action, u: UserId)
  {
    (a.SendText? || a.SendQuickReplies?) && a.to == u
  }

  /** The sends among `acts` that go to `u`, in issue order. */
  function MessagesTo(acts: seq<Action>, u: UserId): seq<Action>
  {
    if acts == [] then []
    else (if IsMessageTo(acts[0], u) then [acts[0]] else []) + MessagesTo(acts[1..], u)
  }

  /** The context writes among `acts`, in issue order. */
  function ContextWrites(acts: seq<Action>): seq<Action>
  {
    if acts == [] then []
    else (if acts[0].SetContext? then [acts[0]] else []) + ContextWrites(acts[1..])
  }

  lemma {:induction false} MessagesToAppend(a: seq<Action>, b: seq<Action>, u: UserId)
    ensures MessagesTo(a + b, u) == MessagesTo(a, u) + MessagesTo(b, u)
  {
    if a == [] {
      assert a + b == b;
    } else {
      var h := if IsMessageTo(a[0], u) then [a[0]] else [];
      assert (a + b)[0] == a[0];
      assert (a + b)[1..] == a[1..] + b;
      MessagesToAppend(a[1..], b, u);
      calc {
        MessagesTo(a + b, u);
        h + MessagesTo(a[1..] + b, u);
        h + (MessagesTo(a[1..], u) + MessagesTo(b, u));
        (h + MessagesTo(a[1..], u)) + MessagesTo(b, u);
      }
    }
  }

  lemma {:induction false} ContextWritesAppend(a: seq<Action>, b: seq<Action>)
    ensures ContextWrites(a + b) == ContextWrites(a) + ContextWrites(b)
  {
    if a == [] {
      assert a + b == b;
    } else {
      var h := if a[0].SetContext? then [a[0]] else [];
      assert (a + b)[0] == a[0];
      assert (a + b)[1..] == a[1..] + b;
      ContextWritesAppend(a[1..], b);
      calc {
        ContextWrites(a + b);
        h + ContextWrites(a[1..] + b);
        h + (ContextWrites(a[1..]) + ContextWrites(b));
        (h + ContextWrites(a[1..])) + ContextWrites(b);
      }
    }
  }

  /** A list with no context write among its actions has no context writes. */
  lemma {:induction false} NoContextWrites(acts: seq<Action>)
    requires forall a :: a in acts ==> !a.SetContext?
    ensures ContextWrites(acts) == []
  {
    if acts != [] {
      assert acts[0] in acts;
      assert forall a :: a in acts[1..] ==> a in acts;
      NoContextWrites(acts[1..]);
    }
  }

  /** A list of sends all addressed to `u` is its own restriction to `u`. */
  lemma {:induction false} AllMessagesTo(acts: seq<Action>, u: UserId)
    requires forall a :: a in acts ==> IsMessageTo(a, u)
    ensures MessagesTo(acts, u) == acts
  {
    if acts != [] {
      assert acts[0] in acts;
      assert forall a :: a in acts[1..] ==> a in acts;
      AllMessagesTo(acts[1..], u);
    }
  }

  /**
   * A context write for `u` followed by sends to `u` only: the write is the
   * one context write, the sends are the messages to `u`, and everything is
   * addressed to `u`.
   */
  lemma WriteThenMessages(write: Action, rest: seq<Action>, u: UserId)
    requires write.SetContext? && write.user == u
    requires forall a :: a in rest ==> IsMessageTo(a, u)
    ensures ContextWrites([write] + rest) == [write]
    ensures MessagesTo([write] + rest, u) == rest
    ensures forall a :: a in [write] + rest ==> Addressee(a) == Some(u)
  {
    var acts := [write] + rest;
    assert acts[0] == write && acts[1..] == rest;
    NoContextWrites(rest);
    AllMessagesTo(rest, u);
  }

  /** A list with no send addressed to `u` has no messages to `u`. */
  lemma {:induction false} NoMessagesTo(acts: seq<Action>, u: UserId)
    requires forall a :: a in acts ==> !IsMessageTo(a, u)
    ensures MessagesTo(acts, u) == []
  {
    if acts != [] {
      assert acts[0] in acts;
      assert forall a :: a in acts[1..] ==> a in acts;
      NoMessagesTo(acts[1..], u);
    }
  }
}
