# Listing waitlist and conversation routing

This project models the core of a chat-based marketplace bot in Dafny. A seller
posts a listing. Interested buyers join the listing's waitlist. The buyer at
the head of the waitlist is offered the price.

The model covers two source files:

- `src/controllers/messages/users/buyer.js`. The buyer flow: joining the
  waitlist (`addUserToQueue`), leaving it (`removeUserFromQueue`) with the
  fan-out of position updates, promotion of the head (the listener installed
  by `initializeQueueHandler`), the buyer's reply menus and `formatFAQ`.
- `src/controllers/messages/handlers.js`. The router: `handleListing` decides
  what a user gets on opening a listing. `handleQuickReply` dispatches on a
  quick-reply payload through a `switch` where some cases fall through.

The store and the chat platform are not modelled as systems:

- A store read is a parameter: a `Listing` record, `Option<Listing>` when the
  record may be missing, `Option<seq<UserId>>` for the queue listener's value.
- Everything an operation does to the outside world is an `Action` in the
  returned list, in the order the operation issues it (for a call that is not
  awaited, the order in which its sends go out; see "Left out"). That covers text and
  quick-reply sends, context writes, queue and interest writes, listing
  creation and calls into collaborators.
- The queue and interest lists are `seq`s. The JavaScript code mutates them
  with `push` and `splice`; the model's methods reassign them and return the
  new value.
- Message helpers (`getQueueMessage`, `getUpdatedQueueMessage`,
  `getUpdatedSellerQueueMessage`) and the entries of `copy.json` are symbolic
  `Text` values. Two texts are equal exactly when they come from the same
  helper with the same arguments.

Modules:

- `Wrappers` holds `Option`.
- `Messages` holds the shared vocabulary and the `MessagesTo` / `ContextWrites`
  filters.
- `Waitlist` is the queue algebra: `indexOf`, `splice`, idempotent append,
  removal, and series of joins and leaves.
- `Buyer` models `buyer.js`.
- `Handlers` models `handlers.js`.

A JavaScript case label with no `break` runs on into the next label. The
model states this directly. `Entered(c)` is the list of labels run when the
switch enters at `c`. `FallsThrough` marks the two bodies with no `return` or
`break`. The show-faq body only starts a listing read; its sends come from
the read's callback. JavaScript runs the current handler to completion before
any callback, so those sends come after all of the switch's synchronous
sends. `Dispatch` appends them last for that reason.

## Model

| member | source | states |
|---|---|---|
| `Waitlist.FirstIndexOf` | src/controllers/messages/users/buyer.js:148 | `indexOf`: -1 exactly when absent; otherwise a position holding the element with no earlier occurrence |
| `Waitlist.Remove` | src/controllers/messages/users/buyer.js:152 | `splice(i, 1)`: length drops by one; elements before `i` stay put; later ones shift down one place, keeping their order |
| `Waitlist.Enqueue` | src/controllers/messages/users/buyer.js:119-121 | the new member is always present afterwards; unchanged if already present; otherwise appended at the end |
| `Waitlist.Dequeue` | src/controllers/messages/users/buyer.js:148-153 | unchanged when absent; one element shorter when present |
| `Waitlist.EnqueueKeepsNoDup` | src/controllers/messages/users/buyer.js:119-121 | a duplicate-free queue stays duplicate-free after a join |
| `Waitlist.EnqueueIdempotent` | src/controllers/messages/users/buyer.js:119-121 | a second join by the same user is a no-op |
| `Waitlist.JoinTwiceOnce` | src/controllers/messages/users/buyer.js:119-121 | after two joins in a row, the user occurs exactly once |
| `Waitlist.CountOfNoDup` | src/controllers/messages/users/buyer.js:119-121 | in a duplicate-free queue a member occurs once and a non-member zero times |
| `Waitlist.RemoveKeepsNoDup` | src/controllers/messages/users/buyer.js:152 | splicing out one position keeps a queue duplicate-free |
| `Waitlist.DequeueMembers` | src/controllers/messages/users/buyer.js:148-153 | in a duplicate-free queue a leave removes the leaver entirely; every other user's membership is unchanged |
| `Waitlist.ApplyKeepsNoDup` | src/controllers/messages/users/buyer.js:118-153 | every series of joins and leaves keeps the waitlist duplicate-free |
| `Waitlist.FirstIndexOfUnique` | src/controllers/messages/users/buyer.js:148 | the first position of an element is the only one with no earlier occurrence |
| `Waitlist.FirstIndexOfAfterAppend` | src/controllers/messages/users/buyer.js:120 | appending does not move an existing member |
| `Waitlist.FirstIndexOfAfterRemove` | src/controllers/messages/users/buyer.js:152 | after a splice, a member after the gap moves down one place; a member before it stays |
| `Waitlist.RemoveAfterFirst` | src/controllers/messages/users/buyer.js:152 | splicing out a position after a member's first occurrence leaves that occurrence where it was |
| `Waitlist.RemoveBeforeFirst` | src/controllers/messages/users/buyer.js:152 | splicing out a position before a member's first occurrence moves it one place forward |
| `Waitlist.EnqueueKeepsOrder` | src/controllers/messages/users/buyer.js:119-121 | a join keeps the relative order of every waiting pair |
| `Waitlist.DequeueKeepsOrder` | src/controllers/messages/users/buyer.js:148-153 | a leave keeps the relative order of every pair that stays |
| `Waitlist.ApplyKeepsOrder` | src/controllers/messages/users/buyer.js:118-153 | two waiters keep their join order through any series of joins and leaves by others |
| `Buyer.PromptNextAction` | src/controllers/messages/users/buyer.js:11-30 | one menu to the buyer; `message-seller` comes first; `show-faq` is the only other option and appears iff the listing has an FAQ |
| `Buyer.PromptInterestedBuyer` | src/controllers/messages/users/buyer.js:54-76 | the queue status text, then a menu of exactly `add-queue`, `show-faq`, `skip-queue` in that order, all to the buyer |
| `Buyer.PromptInterestedBuyerNoQueue` | src/controllers/messages/users/buyer.js:78-81 | the no-queue notice, then the next-action menu |
| `Buyer.NotifyBuyerStatus` | src/controllers/messages/users/buyer.js:83-106 | the queue status text, then a menu of exactly `show-faq`, `leave-queue`, `quit` |
| `Buyer.JsSubstring` | src/controllers/messages/users/buyer.js:42 | `substring` with two non-positive bounds is empty |
| `Buyer.FormatFaq` | src/controllers/messages/users/buyer.js:37-43 | the loop builds one block per entry in order (invariant); `substring(0, -2)` of the result is always `""` |
| `Buyer.FaqBlocksShape` | src/controllers/messages/users/buyer.js:38-41 | a non-empty FAQ's text starts with the first entry's block and ends with `"\n\n"` |
| `Buyer.FormatFaqAlwaysEmpty` | src/controllers/messages/users/buyer.js:42 | for any non-empty FAQ, the text built is non-empty yet the returned string is `""`, which differs from the trimmed text |
| `Buyer.JsSlice` | src/controllers/messages/users/buyer.js:42 | `slice` with a negative end drops that many characters from the end |
| `Buyer.TrimmedFaq` | src/controllers/messages/users/buyer.js:37-43 | the corrected formatter: `""` for an empty FAQ; otherwise the text built, minus exactly its final `"\n\n"` |
| `Buyer.TrimmedFaqDropsFinalBlankLine` | src/controllers/messages/users/buyer.js:37-43 | the corrected formatter gives `""` for an empty FAQ; otherwise every block minus the final `"\n\n"`, starting with `Question: ` |
| `Buyer.AddUserToQueue` | src/controllers/messages/users/buyer.js:108-133 | queue and interests are idempotent appends that keep lists duplicate-free; each is written back only when it changed; then the seller's join notice, the next-action menu (sent after its own read) and the seller's updated-queue notice |
| `Buyer.RejoinWritesNothing` | src/controllers/messages/users/buyer.js:118-127 | a buyer already queued and already watching causes no change to either list |
| `Buyer.IndexOf` | src/controllers/messages/users/buyer.js:148 | the scan returns the first position of the recipient, or -1 exactly when absent |
| `Buyer.SurvivorNotices` | src/controllers/messages/users/buyer.js:155-161 | one survivor's loop body: two plain texts, both to that survivor |
| `Buyer.LeftNotices` | src/controllers/messages/users/buyer.js:154-162 | the fan-out issues two texts per survivor, all of them plain texts |
| `Buyer.NotifySurvivors` | src/controllers/messages/users/buyer.js:154-162 | the survivor loop issues exactly the fan-out `LeftNotices` of the post-splice queue |
| `Buyer.LeftNoticesAt` | src/controllers/messages/users/buyer.js:154-162 | survivor k's texts are at positions 2k and 2k+1: the fixed leave notice first, then its updated-position text |
| `Buyer.LeftNoticesPerUser` | src/controllers/messages/users/buyer.js:154-162 | in a duplicate-free fan-out each survivor gets exactly its two texts; nobody else gets anything |
| `Buyer.RemoveUserFromQueue` | src/controllers/messages/users/buyer.js:144-165 | absent: queue untouched, only `not_in_queue` to the leaver, no summary. Present: first occurrence spliced out, length minus one, queue written, survivors' fan-out, seller summary returned |
| `Buyer.RemovalFanOut` | src/controllers/messages/users/buyer.js:148-163 | removal from a duplicate-free queue of N: 2(N-1) sends; none to the leaver; each other member gets its notice then its update |
| `Buyer.HeadChanged` | src/controllers/messages/users/buyer.js:169-194 | a null value does nothing, and only a null value; otherwise three effects, the first putting `queue[0]` in `accept-price` for this listing |
| `Buyer.HeadChangedPromotesHeadOnly` | src/controllers/messages/users/buyer.js:172-192 | a non-null value promotes its head and nobody else: the only context write is `accept-price` for `queue[0]`; every effect goes to `queue[0]`; its messages are the two sends after the write; the offer is exactly accept then decline |
| `Buyer.OfferPayloads` | src/controllers/messages/users/buyer.js:174-185 | the offer's buttons carry the payloads `accept-seller-offer` and `decline-seller-offer`, in that order |
| `Buyer.PromoteOnChange` | src/controllers/messages/users/buyer.js:169-194 | corrected promotion: nothing unless the head's identity changes to a new user, who alone is set to `accept-price` |
| `Buyer.HeadChangedRepromotesUnchangedHead` | src/controllers/messages/users/buyer.js:169-194 | as written, a second join re-promotes the unchanged head; the corrected promotion does nothing |
| `Buyer.HeadLeavingPromotesSecond` | src/controllers/messages/users/buyer.js:148-194 | when the head of a duplicate-free queue of two or more leaves, exactly the former second is promoted |
| `Buyer.JoinJoinLeavePromotes` | src/controllers/messages/users/buyer.js:118-194 | join b1, join b2, b1 leaves, under the corrected promotion `PromoteOnChange`: b1 is promoted, then nobody, then b2 (the listener as written promotes b1 again on b2's join) |
| `Handlers.HandleListing` | src/controllers/messages/handlers.js:65-92 | always issues something, and only to the sender |
| `Handlers.HandleListingDecisions` | src/controllers/messages/handlers.js:69-90 | missing listing: categorization prompt. At most one context write, exactly one iff a non-seller opens a queued listing (`buyer-add-queue` + join prompt, or `buyer-status` + status). Seller: own-listing or setup-queue prompt, no write. Listing without queue: only `no_queue` |
| `Handlers.CaseOf` | src/controllers/messages/handlers.js:101-150 | the switch reaches `default` exactly for payloads with no case label |
| `Handlers.FallsThrough` | src/controllers/messages/handlers.js:123-146 | the labels with neither `return` nor `break` are exactly those written between show-listings' `break` and quit |
| `Handlers.Next` | src/controllers/messages/handlers.js:127-146 | a falling-through label runs into the label written right after it |
| `Handlers.Entered` | src/controllers/messages/handlers.js:101-151 | the labels run start with the one jumped to |
| `Handlers.CaseBody` | src/controllers/messages/handlers.js:102-150 | a case body issues at most two effects and no context write; every effect except the store writes goes to the sender |
| `Handlers.Run` | src/controllers/messages/handlers.js:101-151 | running a series of case bodies writes no context and addresses only the sender |
| `Handlers.ShowFaqCallback` | src/controllers/messages/handlers.js:131-142 | missing listing: nothing. Otherwise three sends to the user: the FAQ text (or `no_faq`), then the interested-buyer prompt with the listing's queue |
| `Handlers.ShowFaqCallbackSendsTrimmedFaq` | src/controllers/messages/handlers.js:135-136 | for a non-empty FAQ the callback sends the corrected text, which differs from the `""` that `formatFAQ` as written returns |
| `Handlers.HandleQuickReply` | src/controllers/messages/handlers.js:94-152 | requires the sender's context; no payload writes a context; every send and prompt goes to the sender |
| `Handlers.Dispatch` | src/controllers/messages/handlers.js:101-151 | entering the switch at any label writes no context and addresses only the sender |
| `Handlers.StopsAtOwnCase` | src/controllers/messages/handlers.js:102-126 | a label that returns or breaks contributes its own body only |
| `Handlers.ReturningCaseEffects` | src/controllers/messages/handlers.js:102-122 | the exact effects of `buyer`, `seller`, `setup-queue` (seller = sender, `has_queue`, empty queue and FAQ, price 0), `add-queue`, `skip-queue`, `leave-queue` |
| `Handlers.RunFromShowFaq` | src/controllers/messages/handlers.js:130-146 | entering at show-faq runs its body and quit's, whose only synchronous effect is one "Not implemented." |
| `Handlers.ShowFaqFallsIntoQuit` | src/controllers/messages/handlers.js:130-146 | `show-faq`: one "Not implemented." from quit, then the read callback's effects |
| `Handlers.ShowInterestsFallsThrough` | src/controllers/messages/handlers.js:127-146 | `show-interests`: its own "Not implemented.", quit's, then the read callback's effects |
| `Handlers.RunCons` | src/controllers/messages/handlers.js:101-151 | running one more label first puts its body's effects before the rest |
| `Handlers.BreakingCaseEffects` | src/controllers/messages/handlers.js:123-126 | `show-listings`, `quit` and `default`: exactly one "Not implemented." |
| `Handlers.ReturningPayloadEffects` | src/controllers/messages/handlers.js:94-122 | per payload `buyer`, `seller`, `setup-queue`, `add-queue`, `skip-queue`, `leave-queue`: the exact effect list, on the listing id of the sender's context |
| `Handlers.FallThroughPayloadEffects` | src/controllers/messages/handlers.js:94-146 | payload `show-interests`: two "Not implemented." then the FAQ callback; payload `show-faq`: one, then the callback |
| `Handlers.NotImplementedPayloadEffects` | src/controllers/messages/handlers.js:123-150 | payloads `show-listings`, `quit` and every payload with no label: exactly one "Not implemented." to the sender |

## Left out

- src/send.js is not part of this model beyond its promise that no send throws. Every send is an infallible `Action`.
- Store reads, writes and subscriptions (`db.ref`, `once`, `set`, `on("value")`) are not modelled as operations. Reads are parameters; writes are actions.
- `Promise.all` and the interleaving of sends that are not awaited are not modelled. Effects are listed in the order they go out, with the show-faq callback last as described above. The lost-update race of the read-modify-write in `addUserToQueue` and `removeUserFromQueue` is not modelled either.
- `handleText`, `handleDebug` and `handleAttachments` (src/controllers/messages/handlers.js:20-63) are left out: they only echo text or build transport templates.
- The contents of `copy.json` and the helpers `getQueueMessage`, `getUpdatedQueueMessage`, `getUpdatedSellerQueueMessage` and `getListingId` are not modelled. The texts stay symbolic; the listing id is a parameter.
- The seller and user modules (`promptUserCategorization`, `promptSellerListing`, `promptSetupQueue`, `promptStart`, `addListing`, `createListing`) are not part of this model. Calls to them are abstract actions.
- In `handleQuickReply`, `add-queue`, `skip-queue` and `leave-queue` call buyer functions with a leading `client` argument the callees do not take. Two of them also pass a `queue` variable that is not in scope. These become abstract call actions instead of the failures they would cause.
- In `handleListing` and the show-faq callback the same extra `client` argument is dropped: the model issues the prompt the callee builds for the sender.
- `Handlers.ShowFaqCallback`: sends the corrected formatter's text `TrimmedFaq`, not the `""` that `formatFAQ` as written returns for every FAQ (`handlers.js` does not even import `formatFAQ`). The as-written formatter is `Buyer.FormatFaq`; `Handlers.ShowFaqCallbackSendsTrimmedFaq` states the difference. See the findings.
- `console.log` in the queue listener is left out.
- The price-entry FAQ setup sequencer is not in these files, so there is nothing to model.
- `Handlers.HandleQuickReply`: no quick reply writes a context. The code issues no context write in any case, and the model follows it. A sender with no context is not modelled: the destructuring at handlers.js:96-97 throws before any effect.
- `Buyer.HeadChanged`: requires the value to be null or non-empty. The store never returns an empty array; it reads back as null. In JavaScript an empty array would pass the `if (queue)` test with an undefined head.
- `Buyer.AddUserToQueue`: a missing listing record, or a buyer with no `users/<id>` record, is not modelled. Destructuring either snapshot (buyer.js:115-116) throws before any write or send; the parameters are the two records as read.
- `Buyer.AddUserToQueue`: the next-action menu waits for its own listing read, and the seller's updated-queue notice waits for the first seller send. Which of the two goes out first depends on I/O timing; the model puts the menu first.
- `Buyer.RemoveUserFromQueue`: the queue snapshot is a parameter, so a missing listing record is not modelled. Destructuring it would throw.

## Findings

| source | as written | input that shows it | evidently intended | confidence | as-written member | corrected member |
|---|---|---|---|---|---|---|
| src/controllers/messages/users/buyer.js:42 | `substring(0, -2)` clamps -2 to 0, so `formatFAQ` returns `""` for every FAQ | any one-entry FAQ `[{question: "q", answer: "a"}]` returns `""` | drop the trailing `"\n\n"` (`slice(0, -2)`), giving `"Question: q\nAnswer: a"` | high, not executed | `Buyer.FormatFaqAlwaysEmpty` | `Buyer.TrimmedFaq` |
| src/controllers/messages/users/buyer.js:169-194 | the listener fires on every change of the queue value and re-promotes `queue[0]` even when the head did not change | queue `[b1]`, then `b2` joins: `b1` is set to `accept-price` and offered the price again | promote only when the head's identity changes | medium, not executed | `Buyer.HeadChangedRepromotesUnchangedHead` | `Buyer.PromoteOnChange` |
