# Vuvuzela, modelled and proved in Dafny

Vuvuzela hides who talks to whom. Clients send fixed-size onions to an entry server in
rounds. A chain of servers peels them layer by layer; every server drops duplicates, adds
noise, shuffles and drives the next server. In a conversation round the last server swaps
the messages that name the same dead drop, and the replies travel back through the
unshuffling and resealing of every server. In a dial round introductions only travel
forward and end up in buckets that users fetch.

This project models that machinery and proves what it is for. The main results:

- **A conversation round is a swap** (`ConvoRefinement.RoundRefinesSwap`,
  `ConvoRefinement.HonestRound`). For any number of servers, any shuffles, noise and
  malformed requests, as long as no messages collide and no noise hits its drop, a client
  that opens its reply with the keys of its own onion finds the message of its partner at
  the dead drop, or its own message when it is alone there.
  The services of `ConvoServer` compute exactly this round (`ConvoServer.RunConvoRound`),
  in batches of any order.
- **With no assumption on the other messages** (`ConvoExact.OpensExactlyWhenKept`): in a
  completed round the owner of an onion that all servers can peel opens its reply exactly
  when no server dropped the message as a duplicate, and then finds the last server's answer
  to it; two such onions alone at their dead drop swap, whatever else collides
  (`ConvoExact.KeptPartnersSwap`).
- **When a round completes** (`ConvoTheorems.CompletesExactly`), for any batch: exactly
  when no server but the last drops more messages, as malformed or as duplicates, than the
  noise it adds. Well-formed requests without collisions always complete
  (`ConvoRefinement.WellFormedCompletes`); one onion sent twice, or one of the wrong size,
  is enough to fail a round whose first server adds no noise (`ConvoRefinement.ReplayFails`,
  `ConvoRefinement.MisshapenFails`).
- **Two peers hear each other** (`Conversations.ConversationDelivers`): in any batch whose
  round completes, when neither onion is dropped as a duplicate and nobody else is at their
  drop, what one user queued is what the other one's client shows, through marshalling,
  roles and nonces, dead drop, onion, mix-net and back; an absent peer is recognised as
  absent (`Conversations.AloneHearsItself`). Among honest clients, two peers are alone at
  their drop when everyone else's is elsewhere (`Conversations.HonestConversation`).
- **Messages leave in the order of the numbers drawn** (`MixOrder.OutgoingShuffled`,
  `MixOrder.DialOutShuffled`), and every order comes out for some draw
  (`MixOrder.EveryOrderPossible`, `MixOrder.DialEveryOrderPossible`).
- **Failures stay confined** (`ConvoServer.ConvoService.Close`, `ConvoServer.RunConvoRound`):
  whatever the outcome, every server keeps its invariant and all its other rounds, and the
  rounds known along the chain stay nested, so that the first server's acceptance of a new
  round vouches for all servers.
- **Access counts are exact** (`ConvoCounts.AccessCountsExact`): the clients' counts plus
  the noise of all servers; these are the numbers a completed round reports
  (`EntryServer.CountsReported`).
- **Dialing conserves introductions and reaches the dialed user**
  (`DialTheorems.BucketConserves`, `DialTheorems.DialReaches`, `DialTheorems.DialAnnounced`),
  and never invents or multiplies any, even when messages collide
  (`DialTheorems.BucketInventsNothing`).
- **The pipeline of rounds keeps order and ends** (`Pipeline.OrderKept`,
  `Pipeline.Exclusion`, `Pipeline.EveryRunCompletes`), and it never wedges exactly when no
  two rounds share a kind and a number (`Pipeline.NeverWedgesExactlyWhenDistinct`).
- **The exchange does not depend on the order of a batch exactly when every dead drop has
  at most two users or only one message** (`DeadDrops.CommutesExactlyWhenFair`); then
  shuffling, exchanging and unshuffling is the plain exchange
  (`DeadDrops.ShuffledExchange`).
- **Shuffling is a uniform choice of permutation** (`Shuffling.ShufflersArePermutations`,
  `Sampling.ShufflersEquallyWeighted`), also counting the words that are rejected on the
  way (`Sampling.CompletingCounted`).
- **The parallel work splitter hands out every index exactly once** under every
  interleaving (`WorkSplitting.ParallelFor`); buffered randomness is one unbroken keystream
  (`Keystream.Salsa20Rand.ReadAll`); the entry server puts every request in the batch it
  named (`EntryServer.BatchHoldsItsRequests`).

## How it is modelled

- Messages are `Boxes.Wire` values. A sealed box is a node with its key, nonce and body, so
  that opening is exact; what the ciphertext looks like in bytes is an arbitrary `Cipher`.
  A shared key is the unordered pair of the two public keys.
- Everything drawn at random by one server in one round is a `ConvoSpec.Draw` or a
  `DialSpec.DialDraw`: noise counts and contents, ephemeral keys, swaps and filler bytes.
  The theorems hold for all draws.
- Services are objects whose `rounds` map the methods update; `next` is the server they
  drive. `Deployed` says that the services follow the order of the PKI. A Go panic is the
  outcome `Panicked`.
- The RPC fan-out of a batch is a loop that performs the calls in an arbitrary order.
- `ConvoTheorems.Collisionless` and `DialSpec.DialClear` say that no server sees two
  messages with equal last eight bytes, which is what deduplication compares;
  `ConvoRefinement.NoiseApart` and `ConvoCounts.Fresh` say that noise misses the clients'
  dead drops.

## Where the code differs from what one may expect

- A third user of a dead drop is handed the first user's message, and neither of the first
  two is told (`DeadDrops.FirstAnswersAll`). This is why the order of the batch matters
  there.
- Cutting the replies to the number of incoming onions (convo.go:244) panics when the kept
  messages and the noise together are fewer than the onions received.
  `ConvoTheorems.CompletesExactly` gives the condition, `ConvoRefinement.DropsNeedNoise`,
  `ConvoRefinement.ReplayFails` and `ConvoRefinement.MisshapenFails` give failing batches,
  and `ConvoServer.ConvoService.Close` says on which server the panic is.
- A second `NewRound` with a known number returns its error with the `Idle` lock held
  (convo.go:88-96, dial.go:68-76). It is always the first server that refuses, and none of
  the rounds waiting there starts any more (`Pipeline.WedgedForGood`,
  `Pipeline.RepeatWedges`).
- `PKI.Index` gives the last position for an unknown server, without an error
  (`Pki.IndexExact`).
- A text of more than 239 bytes is cut, and trailing zero bytes are lost
  (`Messages.ShownExactlyWhenFits`).
- A reply from the peer with nothing in its innermost box makes the client panic
  (vuvuzela-client/conversation.go:78); `Conversations.CrashesExactly` gives the exact size of such a reply
  and `Conversations.EmptyMessageCrashes` one of them. No reply of the size that every `Get`
  enforces is one (`Conversations.FullRepliesNeverCrash`).

## Model

| member | source | states |
|---|---|---|
| ConvoRefinement.RoundRefinesSwap | convo.go:150-343 | for any chain, shuffles, noise and malformed onions, the owner of onion i opens reply i to a proper swap answer among the client requests |
| ConvoRefinement.HonestRound | convo.go:358-425 | with honest clients the round completes and a client of a drop with at most two users opens exactly what one direct exchange of all requests gives it |
| ConvoTheorems.CompletesExactly | convo.go:222-244 | for any batch, with malformed and duplicate onions: the replies can be cut to the incoming number on every server if and only if, on every server but the last, kept plus noise is at least the number received |
| ConvoTheorems.ClosesExactly | convo.go:214-244 | the same for the slots of one server, which may also never have been filled |
| ConvoRefinement.CompletesExactlyWhenFits | convo.go:243-244 | without collisions that condition is one on the messages and the noise counts alone; the shuffles do not matter |
| ConvoRefinement.WellFormedCompletes | convo.go:224-244 | when every request can be peeled by all servers and none collide, the round completes for every noise |
| ConvoRefinement.DropsNeedNoise | convo.go:194-212 | a first server without noise that drops any message fails the round |
| ConvoRefinement.ReplayFails | convo.go:199-202 | any onion sent twice is such a batch |
| ConvoRefinement.MisshapenFails | convo.go:169-182 | so is a single onion of the wrong size |
| ConvoRefinement.FinalShape | convo.go:165-183 | the slots that reach the last server are the peeled client messages followed by the plaintexts of all noise |
| ConvoRefinement.NoiseSurvives | noise.go:11-36 | noise sealed for the remaining servers is peeled by them to exactly its plaintext |
| ConvoRefinement.HonestPeels | vuvuzela-client/conversation.go:121-126 | a client's onion peels to its exchange, with the shared keys the client kept |
| ConvoTheorems.Hop | convo.go:188-231 | one server turns an arranged batch into an arranged batch of peeled slots plus noise, and every kept message leaves where the shuffle put it |
| ConvoTheorems.DeliveryAtLast | convo.go:245-299 | the last server's answers, resealed by Get, open to swap answers for every slot of any arranged batch |
| ConvoTheorems.DeliveryStep | convo.go:243-244 | unshuffled, indexed and resealed, the next server's answers become answers to this server's onions |
| ConvoTheorems.Delivery | convo.go:214-343 | induction over servers: every onion that all servers can peel gets a reply its owner opens to a swap answer |
| ConvoExact.OpensExactlyWhenKept | convo.go:188-343 | for every batch of a completed round, colliding or not: the owner of a well-formed onion opens the reply if and only if every server kept the message as the first with its key, and then finds the last server's answer for exactly that message |
| ConvoExact.Onward | convo.go:222-243 | the kept message of a slot leaves at one position, and unshuffling brings the reply at that position back to the slot's index |
| ConvoExact.AnswerOpens | convo.go:327-340 | with the own shared key a client opens Get's onion exactly when its message was kept; filler never opens |
| ConvoExact.TracksApart | convo.go:194-212 | two onions never end up as one message of the last batch |
| ConvoExact.CollisionlessTracks | convo.go:199-207 | when no server sees the same last eight bytes twice, no well-formed message is dropped |
| ConvoExact.KeptPartnersSwap | convo.go:278-286 | two onions that were not dropped and are alone at their drop in the last batch swap their messages, whatever else collides |
| ConvoExact.AloneGetsOwn | convo.go:275-277 | one that is alone at its drop in the last batch gets its own message back, and nothing it can open when it was dropped |
| ConvoExact.LastApart | convo.go:199-207 | no two messages of the last batch have the same last eight bytes |
| ConvoSpec.MsgKeyReadsEnding | convo.go:199-199 | two messages of at least eight bytes have the same key if and only if their last eight bytes are the same |
| ConvoSpec.FirstByEnding | convo.go:194-208 | a slot is kept if and only if no earlier slot holds a message with the same last eight bytes |
| ConvoRefinement.DifferentEndingsKept | convo.go:194-212 | the last server keeps both of two exchanges whose bodies end differently |
| ConvoSpec.OtherRoundStaysShut | convo.go:165-183 | an onion made for one round is not peeled in another |
| ConvoSpec.OtherReplyStaysShut | convo.go:320-334 | nor does a reply of one round open in another |
| ConvoSpec.NoiseLaidOut | convo.go:103-115 | the noise is the fake singles followed by the pairs side by side, the second sample rounded up to an even number |
| MixOrder.OutgoingShuffled | convo.go:227-231 | what a server passes on is the kept messages and the noise, shuffled by exactly the numbers drawn |
| MixOrder.EveryOrderPossible | convo.go:230-231 | every order of them comes out for some numbers |
| MixOrder.WordsGiveOrder | shuffle.go:10-23 | with the numbers NewShuffler reads off a list of words, the order is that of the shuffler it returns |
| MixOrder.DialOutShuffled | dial.go:163-169 | the same for the batch of a dial round |
| MixOrder.DialEveryOrderPossible | dial.go:168-169 | every order of it comes out for some numbers |
| ConvoSpec.RoundReplies | convo.go:315-343 | a completed round has one reply per onion, all of the outgoing size |
| ConvoCounts.LastDrops | convo.go:256-268 | the dead drops the last server sees are, as a multiset, the clients' plus one per fake single and two per fake pair of every server |
| ConvoCounts.AccessCountsExact | convo.go:103-108 | with fresh noise drops, singles and doubles are the clients' counts plus the totals of numFakeSingles and of numFakeDoubles/2 |
| ConvoServer.ConvoService.NewRound | convo.go:83-121 | refuses a known round, else stores a new round with exactly the specified noise, none on the last server; where the known rounds are nested along the chain, a success means that no later server knows the round |
| ConvoServer.ConvoService.NestedFresh | convo.go:233-236 | a server that does not know a round vouches for all later servers |
| ConvoServer.ConvoService.Open | convo.go:128-142 | succeeds only on a new round, allocates that many empty slots, panics on a negative number |
| ConvoServer.ConvoService.OpenOnion | convo.go:165-183 | the shared key and the recovered message of one slot; zero key and no message for a wrong size |
| ConvoServer.ConvoService.Add | convo.go:150-186 | the exact error cases, the exact panics, also on a round that a failed Close has spent, and slots offset.. filled as specified with all other slots and rounds unchanged |
| ConvoServer.MalformedLeavesSlot | convo.go:165-183 | an onion that does not open sets the key of its slot and leaves its message as it was |
| ConvoServer.ConvoService.FilterIncoming | convo.go:188-212 | keeps the first occurrence of every key and stores the index back to the slots |
| ConvoServer.ConvoService.ExchangeAll | convo.go:246-299 | the replies of the exchange; the numbers of drops accessed once and at least twice join the reported counts, unless eight are waiting |
| ConvoServer.ConvoService.Mix | convo.go:224-244 | sends kept messages and noise through the next server and brings the replies back in slot order, cut to the incoming number |
| ConvoServer.ConvoService.Forward | convo.go:233-241 | succeeds exactly when no later server knows the round and the rest of the chain completes; later servers end with the rounds they had |
| ConvoServer.ConvoService.Close | convo.go:214-303 | succeeds exactly when the round is open and unspent, unknown below and the batches fit, and panics exactly when this server is the one that runs short; on success the round holds the specified replies and the counts are published, on failure it stays open with its messages filtered and its noise gone; whatever the outcome, all servers keep their invariant, their other rounds and the nesting of known rounds |
| ConvoServer.ConvoService.StoreReplies | convo.go:243-302 | the closed round is safe to read: every index has a set shared key and a reply in range |
| ConvoServer.ConvoService.Get | convo.go:315-343 | exact error and panic cases; every in-range Get returns count onions of the outgoing size and reads only set keys and existing replies |
| ConvoServer.ConvoService.Delete | convo.go:345-352 | removes this round and no other |
| ConvoServer.RunConvoRound | convo.go:358-425 | the replies are those of the specified round for the whole chain, the round is gone afterwards on every server, success is characterised exactly; whatever the outcome, all servers keep their invariant, their other rounds and the nesting, and a failure leaves the round on the first server as Close does |
| ConvoServer.AddAll | convo.go:367-387 | span-sized Adds in any order leave the round as one Add of the whole batch |
| ConvoServer.GetAll | convo.go:393-418 | span-sized Gets in any order reassemble to one Get of the whole batch |
| DeadDrops.Tally | convo.go:256-268 | the table holds the first two accesses of every drop; singles and doubles are the numbers of drops accessed once and at least twice |
| DeadDrops.Exchange | convo.go:256-288 | the replies and both counts for every batch |
| DeadDrops.RepliesAreSwapped | convo.go:270-288 | every reply is the message of another user of the drop, or the own one when alone, however crowded the drops are |
| DeadDrops.SwappedUnique | convo.go:275-286 | with at most two users the proper answer is unique |
| DeadDrops.FairCommutes | convo.go:256-288 | for fair batches, exchanging after any permutation answers every request as before |
| DeadDrops.CommutesExactlyWhenFair | convo.go:256-288 | independence of the order holds if and only if every drop has at most two accesses or all its messages are equal |
| DeadDrops.ShuffledExchange | convo.go:230-243 | for fair batches, shuffling, exchanging and unshuffling the replies is the plain exchange |
| DeadDrops.FirstAnswersAll | convo.go:278-286 | every later user of a drop receives the message of its first user |
| DeadDrops.ExchangeInvolutive | convo.go:278-286 | on drops with at most two users, exchanging twice returns every message |
| Dedup.Filter | convo.go:188-212 | the filtering loop computes the kept messages and the index of every slot |
| Dedup.FilterKeepsFirsts | convo.go:194-211 | exactly first occurrences are kept, in order; the non-negative index entries increase onto the kept positions and point at the slot's own message |
| Arrangements.HopArranges | convo.go:222-231 | filtering, appending noise and shuffling keep the bijection between the batch and the slots, and say where each kept message went |
| Onions.Seal | onionbox/onion.go:12-27 | the loop builds the layered onion and the list of agreed keys |
| Onions.Open | onionbox/onion.go:29-40 | the loop undoes layer after layer and fails as soon as one does not open |
| Onions.PeelingInvertsSeal | onionbox/onion.go:12-27 | servers that peel in order recover the message and derive the keys Seal returned |
| Onions.OpenInvertsReplyLayers | onionbox/onion.go:29-40 | Open undoes reply layers that were added last server first |
| Onions.OpensOnlyWithItsKey | onionbox/onion.go:29-40 | a layer opens with its own key and nonce and with no other |
| Onions.OtherServerStaysShut | onionbox/onion.go:12-27 | an onion is not opened by a server other than the one it was sealed for |
| Boxes.NoncesDistinct | vuvuzela.go:76-88 | request and reply nonces differ from each other and between rounds |
| Boxes.NonceBytes | vuvuzela.go:76-88 | the round in four big-endian bytes, the direction, then zeros |
| Bytes.PutUint32RoundTrip | vuvuzela.go:76-88 | the big-endian layout of a 32-bit number reads back |
| Bytes.BigEndianInjective | convo.go:199-199 | byte strings of one length spell the same number only if they are the same |
| Shuffling.Shuffle | shuffle.go:18-23 | the in-place loop computes the specified shuffle |
| Shuffling.LastSwap | shuffle.go:18-23 | a shuffle is the shuffle of all but the last element, followed by one swap of the last position with the one drawn for it |
| Shuffling.Unshuffle | shuffle.go:25-30 | the backward loop computes the specified unshuffle |
| Shuffling.UnshuffleUndoes | shuffle.go:18-30 | unshuffling a shuffled sequence restores it |
| Shuffling.ShuffleUndoes | shuffle.go:18-30 | shuffling an unshuffled sequence restores it |
| Shuffling.ShufflePreservesMultiset | shuffle.go:18-23 | shuffling keeps the multiset |
| Shuffling.ShuffleIsPermutation | shuffle.go:18-30 | a shuffler moves elements by one permutation that does not depend on them, and unshuffling another batch of that length moves them back |
| Shuffling.ShufflersArePermutations | shuffle.go:10-16 | the sequences with s[i] <= i map one-to-one onto all permutations |
| Sampling.Intn | shuffle.go:32-45 | returns the residue of the first accepted word and uses no later one |
| Sampling.IntnUniform | shuffle.go:32-45 | for every n up to 2^32-1 each residue is produced by the same positive number of words |
| Sampling.NewShuffler | shuffle.go:10-16 | draws a shuffler of the right length from consecutive words, one accepted word per entry |
| Sampling.ScriptsExact | shuffle.go:10-16 | the scripts counted for a shuffler are exactly the accepted word lists that produce it |
| Sampling.ShufflersEquallyWeighted | shuffle.go:10-16 | all shufflers of one length have equally many scripts |
| Sampling.CompletingDraws | shuffle.go:32-45 | the word lists counted for a shuffler are exactly those on which NewShuffler yields it and uses every word, rejected ones included |
| Sampling.CompletingCounted | shuffle.go:10-45 | for every number of words there are equally many such lists for all shufflers of one length |
| Noise.FillWithFakeSingles | noise.go:11-20 | every destination is a fresh random exchange sealed for the next servers |
| Noise.FillWithFakeDoubles | noise.go:22-36 | destinations come in pairs whose exchanges share the dead drop |
| Noise.Paired | noise.go:25-29 | the second of a pair has the first sixteen bytes of the first and its own bytes after them |
| Noise.CouplesAt | noise.go:30-33 | the two of pair k stand at positions 2k and 2k+1 |
| Noise.FillWithFakeIntroductions | noise.go:38-57 | the introductions carry the buckets in order, as many as each bucket's count |
| Noise.FakeIntros | noise.go:48-56 | after its four bucket bytes a fake introduction has exactly the bytes drawn |
| Noise.FillBuckets | noise.go:39-46 | the running index writes every bucket number its count times |
| Pki.Index | pki.go:68-77 | the first position of a listed name, the last position for an unknown one, 0 for an empty order |
| Pki.IndexExact | pki.go:68-77 | the position holds the name if and only if the name is listed |
| Pki.IndexOfServer | pki.go:68-77 | a listed server's position is found |
| Pki.OwnKey | pki.go:89-101 | the keys from a listed server on start with its own, so that peeling uses the key the onion was sealed for |
| Pki.ServerKeys | pki.go:49-56 | the keys of all servers in chain order |
| Pki.NextServerKeys | pki.go:89-96 | the keys of the servers after this one |
| Pki.SizesTelescope | pki.go:98-106 | noise and peeled messages have the size the next server expects, and replies grow by one box per server |
| Spanning.Spans | internal/span.go:8-20 | the spans tile the batch, all but the last of full size |
| Spanning.CoveredOnce | internal/span.go:8-20 | every position lies in exactly one span |
| Pipeline.StepKeepsLocks | convo.go:233-236 | every step keeps at most one holder per server and every holder in the stage that holds it |
| Pipeline.StepKeepsLogs | convo.go:83-121 | every step keeps each server's log of started rounds a prefix of the previous server's |
| Pipeline.OrderKept | convo.go:83-121 | in every run the rounds started on a later server are a prefix of those on an earlier one, shorter by at most one per server in between; conversation and dial rounds together |
| Pipeline.Exclusion | convo.go:88-120 | in every run no two rounds lie between NewRound and unlock on one server |
| Pipeline.SomeStepEnabled | convo.go:214-303 | while a round is unfinished and none is wedged some step is enabled |
| Pipeline.EveryRunCompletes | dial.go:155-188 | with distinct rounds every run has at most 3n steps per round and stops exactly when all rounds are closed on all n servers |
| Pipeline.WedgedForGood | dial.go:66-76 | in every run a refused round was refused by the first server, keeps its lock at every later step, and every round of either kind that was waiting keeps waiting |
| Pipeline.NeverRefusedLater | convo.go:233-236 | a round that got past one server is never refused by the next, because the rounds known along the chain are nested |
| Pipeline.RepeatWedges | convo.go:88-96 | two rounds with one number have a run that ends with the second one wedged |
| Pipeline.NeverWedgesExactlyWhenDistinct | convo.go:88-96 | no run wedges if and only if no two rounds have the same kind and number |
| WorkSplitting.StepKeepsInv | internal/parallelfor.go:15-46 | every step of every worker keeps each index in exactly one place: handed out, in a worker's block, or not fetched yet |
| WorkSplitting.StepLowersWork | internal/parallelfor.go:15-46 | every step lowers the remaining work, so every interleaving ends |
| WorkSplitting.ParallelFor | internal/parallelfor.go:48-74 | for any number of workers and any interleaving every index below n is handed out exactly once, no other is, and the counter stays bounded |
| WorkSplitting.GP.Next | internal/parallelfor.go:15-23 | the shared counter advances by one block and its old value is the base while below max |
| WorkSplitting.P.Next | internal/parallelfor.go:30-46 | on any pool the worker plays in, a call is one or two steps of that pool and hands out exactly the index it returns |
| WorkSplitting.CallKeepsInv | internal/parallelfor.go:30-46 | every call of every worker keeps each index in exactly one place |
| Keystream.Salsa20Rand.constructor | rand/salsa20rand.go:24-38 | a new reader stands at stream position 0 |
| Keystream.Salsa20Rand.Fill | rand/salsa20rand.go:55-62 | the buffer becomes the next block of the stream |
| Keystream.Salsa20Rand.Read | rand/salsa20rand.go:40-53 | a read of any size fills the destination with the next bytes of the stream and advances by that many |
| Keystream.Salsa20Rand.ReadAll | rand/salsa20rand.go:40-53 | reads of any sizes, concatenated, are one unbroken piece of the stream |
| Keystream.ReuseExactlyAfterWrap | rand/salsa20rand.go:55-62 | two positions show the same keystream byte exactly when they are a multiple of the nonce range apart |
| EntryServer.Collector.Handle | vuvuzela-entry-server/server.go:134-168 | accepts a request exactly when it names the current round, else reports that round and changes nothing |
| EntryServer.Collector.Advance | vuvuzela-entry-server/server.go:182-187 | starts a batch with the pending requests, moves to the next round with wrap-around, loses no accepted request |
| EntryServer.BatchHoldsItsRequests | vuvuzela-entry-server/server.go:134-150 | before the counter wraps, batch r holds exactly the accepted requests that named round r, in order |
| EntryServer.RunRound | vuvuzela-entry-server/server.go:213-242 | reply i goes to the connection that supplied onion i, an error to all when the round fails; with fresh noise a served round reports the clients' access counts plus the noise, unless eight reports are waiting |
| EntryServer.ReplyReachesOwner | vuvuzela-entry-server/server.go:213-242 | the connection that sent request i opens what it is sent to a proper swap answer for its own request |
| EntryServer.CountsReported | convo.go:291-298 | the counts a completed round reports are the clients' singles and doubles plus the noise of all servers |
| EntryDial.RunDial | vuvuzela-entry-server/server.go:244-287 | every connection is sent the bucket its own key names, with the contents the dial round left on the last server; an error when the round fails |
| EntryDial.SendBuckets | vuvuzela-entry-server/server.go:275-286 | connection i gets bucket KeyDialBucket of its key |
| DialServer.DialService.NewRound | dial.go:66-102 | refuses a known round, else stores an open round with the specified noise, on the last server too; where the known rounds are nested along the chain, a success means that no later server knows the round |
| DialServer.DialService.Add | dial.go:109-138 | appends exactly the messages that open, in order; refuses a round that is not open |
| DialServer.DialService.FilterIncoming | dial.go:140-153 | keeps the first message of every key |
| DialServer.DialService.Close | dial.go:155-188 | succeeds exactly when the round is open and unknown below; then it is closed on every server, noise is gone everywhere and messages are left only on the last server, where they are what the specified dial round yields; a failure leaves the shuffled batch in the open round; whatever the outcome no other round on any server is touched and the known rounds stay nested |
| DialServer.DialService.Buckets | dial.go:198-228 | only on the last server and a closed round: bucket b holds the introductions addressed to b |
| DialServer.RunDialRound | dial.go:236-263 | with Adds in any order the round runs through the whole chain as specified, together with whatever it already held, and is closed on every server; a failure leaves the round on the first server as Close does |
| DialServer.AddAll | dial.go:237-256 | span-sized Adds in any order bring, as a multiset, all messages that open to those the round already held |
| DialTheorems.SortIntoBuckets | dial.go:210-226 | the loop sorts every message of the right size and a bucket in range into that bucket |
| DialSpec.DialConserves | dial.go:109-188 | for any shuffles and orders of Adds, the last server ends with exactly the well-formed client messages and all noise |
| DialTheorems.BucketConserves | dial.go:198-228 | each bucket is, as a multiset, the client introductions for it plus the fake ones, whose number is the sum of the servers' counts |
| DialSpec.DialInventsNothing | dial.go:140-188 | with any collisions the last server holds nothing but well-formed client messages and noise, none more often than sent |
| DialTheorems.BucketInventsNothing | dial.go:210-226 | with any collisions a bucket is a sub-multiset of the introductions addressed to it and the fake ones |
| DialTheorems.Dialer.NextDialRequest | vuvuzela-client/dialer.go:29-55 | takes the oldest queued key, or builds an exchange for no bucket, and seals it for all servers |
| DialTheorems.Dialer.HandleDialBucket | vuvuzela-client/dialer.go:57-82 | announces exactly the introductions that open with the user's key, each with a name the PKI has for the sender's key or with the key when it has none |
| DialTheorems.IdleInNoBucket | vuvuzela-client/dialer.go:42-47 | an idle user's exchange is in no bucket |
| DialTheorems.BucketByLastBytes | vuvuzela.go:90-92 | the bucket of a key is the big-endian number in its last four bytes, modulo the number of buckets |
| DialTheorems.IntroductionNames | vuvuzela-client/dialer.go:32-36 | an introduction carries its sender's key and the round four later, also when the numbers wrap |
| DialSpec.UnmistakenArrives | dial.go:140-188 | a message that every server can peel, and that shares its last eight bytes with no other message there, reaches the last server whatever else collides |
| DialTheorems.DialReaches | vuvuzela-client/dialer.go:29-82 | under that condition the dialed user finds the introduction in the bucket of the own key |
| DialTheorems.ClearDialReaches | vuvuzela-client/dialer.go:29-82 | without collisions every dialed user does |
| DialTheorems.DialAnnounced | vuvuzela-client/dialer.go:70-81 | and is shown the caller, by a name the PKI has for the caller's key or by the key, for an introduction that names the round four later |
| Varints.VarintRoundTrip | vuvuzela-client/conversation.go:69-80 | every 64-bit time survives, whatever bytes follow it, in at most ten bytes |
| Varints.VarintBytes | vuvuzela-client/conversation.go:69-69 | seven bits a byte, lowest first, the high bit on all but the last; a number is sent doubled, a negative one as twice its absolute value less one |
| Varints.VarintReads | vuvuzela-client/conversation.go:80-80 | what is read off any bytes: the number up to the first byte without the high bit, or 0 when there is none within ten bytes or it exceeds 64 bits |
| Messages.Marshal | vuvuzela-client/conversation.go:65-75 | the filled array is the type byte and the padded or cut contents |
| Messages.MarshalledBytes | vuvuzela-client/conversation.go:65-75 | every byte of a message: the type, then the text or the encoded time, then zeros |
| Messages.TextArrives | vuvuzela-client/conversation.go:186-189 | what is shown of a text is its first 239 bytes without trailing zero bytes |
| Messages.ShownExactlyWhenFits | vuvuzela-client/conversation.go:70-86 | a text is shown unchanged if and only if it has at most 239 bytes and does not end in a zero byte |
| Messages.TimestampArrives | vuvuzela-client/conversation.go:67-83 | every timestamp survives marshalling |
| Conversations.RolesAgree | vuvuzela-client/conversation.go:219-235 | the receiving role is the other side's sending role, and the two roles differ exactly when the users do |
| Conversations.LessByFirstDifference | vuvuzela-client/conversation.go:221-231 | the keys are compared at the first byte where they differ |
| Conversations.MessageNonceBytes | vuvuzela-client/conversation.go:237-252 | the round in four bytes, zeros, and a last byte that is 0 from the user whose key is smaller where the keys first differ |
| Conversations.NoNonceTwice | vuvuzela-client/conversation.go:237-252 | two different users never use a nonce twice under their shared key, over all rounds and both directions |
| Conversations.SameMeetingPlace | vuvuzela-client/conversation.go:254-267 | both peers compute the same dead drop |
| Conversations.MeetingPlacesDiffer | vuvuzela-client/conversation.go:254-267 | two pairs of peers meet at the same drop exactly when the first sixteen bytes of their MACs are the same, a user alone and a pair exactly when the random bytes are those of the MAC |
| Conversations.Conversation.constructor | vuvuzela-client/conversation.go:39-45 | nothing queued, nothing pending, peer not responding |
| Conversations.Conversation.QueueTextMessage | vuvuzela-client/conversation.go:92-94 | the text joins the end of the queue, unless 64 are waiting |
| Conversations.Conversation.NextConvoRequest | vuvuzela-client/conversation.go:96-140 | sends the oldest queued text, else the time, as an honest client's onion, and remembers keys and message under the round |
| Conversations.Conversation.HandleConvoResponse | vuvuzela-client/conversation.go:142-196 | classifies the reply by the remembered round, forgets the round, marks the peer responding exactly when a message was understood, updates the latency exactly on a timestamp, and does not crash on a reply of the size the servers enforce |
| Conversations.CrashesExactly | vuvuzela-client/conversation.go:77-90 | a reply crashes the client if and only if it comes from the peer and has room for its boxes only |
| Conversations.HearExactly | vuvuzela-client/conversation.go:162-184 | each outcome with its exact condition: the onion fails, the message is the own one, the box of the peer fails, the type byte is unknown, a text, a time; the peer responds exactly on the last two |
| Conversations.FullRepliesNeverCrash | convo.go:335-339 | a reply of the outgoing size never does |
| Conversations.EmptyMessageCrashes | vuvuzela-client/conversation.go:172-179 | a reply that does |
| Conversations.LatencyExact | vuvuzela-client/conversation.go:190-195 | the latency is the exact difference whenever that fits in a duration, and the longest duration for a timestamp so late that its seconds since the year 1 overflow |
| Conversations.KeptPartnersDiffer | vuvuzela-client/conversation.go:168-170 | of two kept messages at one drop, the partner's is never mistaken for the own one |
| Conversations.AloneTogether | vuvuzela-client/conversation.go:254-267 | two peers have nobody else at their drop when the drop of every other user is elsewhere |
| Conversations.ConversationDelivers | vuvuzela-client/conversation.go:96-196 | in any batch whose round completes, two peers whose onions were not dropped and who are alone at their drop in the last batch get exactly the meaning of what the other sent |
| Conversations.AloneHearsItself | vuvuzela-client/conversation.go:162-182 | without a partner the client recognises its own message, one who talks to itself reads it, and one whose onion was dropped cannot open the reply |
| Conversations.HonestConversation | vuvuzela-client/conversation.go:96-196 | among honest clients without collisions, two peers always understand each other when everyone else's MAC prefix or random drop is another; that they are alone at their drop is derived |
| Conversations.HonestAlone | vuvuzela-client/conversation.go:168-182 | and one without a partner always finds its own message |

## Left out

- NaCl box, HMAC-SHA256 and Salsa20 internals: boxes are symbolic, the MAC and the block function are parameters.
- Privacy, differential privacy and cryptographic strength: not functional behaviour of this code.
- laplace.go: floating point; noise counts are arbitrary naturals.
- vrpc and net/rpc: a call is a method call, `CallMany` performs each call once in any order; transport errors are not modelled.
- Websockets, JSON envelopes, base32 keys, configuration files, the user interface, histograms and logging: I/O and formatting.
- The endless loops of the entry server and their timing: one iteration is `EntryServer.Collector.Advance` and a round.
- The `Idle` lock inside the service classes: locking is modelled in `Pipeline` as a state machine over rounds and servers, where each Close is split at the next server's NewRound and at the unlock.
- Overlapping Close and Add calls on one round from several callers, and the mutexes that guard the maps.
- ParallelFor inside the services: those loops are written in index order; `WorkSplitting.ParallelFor` shows that each index is worked on once.
- Aliasing of slices: rounds are values in a map, so that `append` to `round.incoming` reusing its backing array is not visible.
- ConvoServer.ConvoService.Close: after a failed Close of an open round, what the later servers hold of that one round, and whether the counts were published, is not said; it depends on where the chain failed.
- ConvoServer.RunConvoRound: the same, for the failed round on the servers after the first.
- DialServer.DialService.Close: after a failed Close of an open round, what the later servers hold of that one round is not said.
- DialServer.RunDialRound: the same, for the failed round on the servers after the first.
- ConvoServer.ConvoService.NewRound: the noise is filled before the call returns instead of in a goroutine that Close waits for.
- Conversations.Conversation.QueueTextMessage: the waiting of a caller at a full queue is a result, not a wait.
