# A verified model of Mailpile's index layer

Mailpile keeps all mail metadata in an in-memory index, groups messages into conversations, answers searches
from posting lists split over many files, and caches the results of commands. Around that layer sit text and
format algorithms and a few small protocols: worker threads, mail delivery, crypto statuses, the search history.
This project models that code and proves what it keeps.

Code that changes things step by step is modelled as classes and methods whose fields are changed in place; each
method is proved against a function or relation on the state, and what matters is proved about that. Code that
interleaves (command cache, index saving, worker threads) is a state machine whose theorems are about every run.
Where the code does less than its documentation says, the model follows the code, and the exact condition under
which the promise holds is proved.

| part | modules |
|---|---|
| conversation threading | `ThreadTable`, `ThreadRefs`, `ThreadMerge`, `ThreadSplit`, `ThreadIndex`, `ThreadRuns`, `Base36` |
| posting lists | `PostingRoutes`, `PostingSplit`, `PostingSums`, `PostingGreedy`, `PostingStore`, `PostingRuns`, `PostingLosses` |
| metadata index: saving, tags, collapsing of results | `IndexLines`, `Journal`, `JournalSteps`, `JournalRuns`, `JournalIndex`, `JournalEdits`, `JournalCounts`, `Tags`, `TagIndex`, `TagRuns`, `Collapse` |
| command cache | `CommandCache`, `CacheProtocol`, `CacheRuns`, `CacheRefresh`, `CacheStale` |
| text and formats | `ReflowWords`, `Reflow`, `ReflowText`, `VCardFold`, `VCardLine`, `VCardMerge`, `MboxScan`, `BitMask`, `Packing`, `StorageBacked` |
| small protocols | `SearchHistory`, `SearchOrders`, `StatusMix`, `CryptoState`, `WorkerProtocol`, `WorkerSteps`, `WorkerRuns`, `Worker`, `Cron`, `Delivery`, `DeliveryRuns` |

What the code does not keep. For each there is a lemma that says exactly when it does, and, but for packed lists,
where that is up to zlib, one with an input or a run for which it does not:

- Threading a message that sits in a foreign thread leaves its old root with a stale list
  (`ThreadMerge.MergeKeepsValidExactly`, `ThreadMerge.StrayMessageBreaksThreads`).
- Unthreading a root does not cut loose the replies that come before it in its own list, although the comment in
  the code says that it does (`ThreadSplit.KidGetsOwnThread`, `ThreadSplit.EarlyKidStays`).
- Saving a posting-list container loses hits when a picked name extends one that was picked before it
  (`PostingSplit.SplitExactly`). Some choice of names does that if and only if the container has a big term that can
  be picked behind a prefix of it (`PostingGreedy.ShadowExactly`), and there is a container for which every choice
  does (`PostingGreedy.ShadowHappens`). No run does while every term has less than half of MAX_ITEMS messages
  (`PostingRuns.LightRunIsClean`); with terms of exactly half, a fresh index can lose hits at its first save
  (`PostingLosses.LosingRun`).
- The command cache hands out stale results after refreshes that come too late: for look-ups whose entry is still the
  cached one, and not exposed, results are fresh over all runs with a given largest gap between refreshes if and only
  if the gap plus the lag is at most the life of a mark (`CacheStale.FreshExactly`,
  `CacheStale.LateRefreshServesStale`).
- Even with refreshes in good time, refresh first removes the timeout marker from the set of requirements that the
  old and the new entry share, and stores the new entry only then. A look-up in between hands out the stale result
  (`CacheStale.ExposedServesStale`), and so does one that has read the old entry before and goes on afterwards
  (`CacheStale.OvertakenServesStale`). A look-up whose entry is the cached one and not exposed when it answers is
  fresh (`CacheRuns.ServedIsFresh`).
- `reflow_text` is not stable on text that ends in a blank line (`ReflowText.ReflowStableExactly`,
  `ReflowText.BlankEndIsLost`).
- A full save of the index that fails between its two renames leaves no index file, and the next save may not
  notice (`JournalRuns.GapExactly`, `JournalRuns.GapGoesUnnoticed`, `JournalRuns.GapHappens`).
- A record is read back after a save and a restart if and only if its MID column names its position and its thread
  column does not end in a blank (`JournalEdits.ReadBackExactly`). One that does not fit is lost, and replaces the
  record of the position that it names (`JournalEdits.SpoiltBySave`, `JournalEdits.SpoiltByAppend`). What `add_tag`
  stores for a position without a record fits a single position (`JournalEdits.TaggedBogusFits`).
- Packed sets of 4 to 15 numbers that start with 0xffffffff, and packed lists of 3 to 15 numbers that start with
  -1, are taken for compressed data (`Packing.IntSetRoundTripExactly`, `Packing.SmallSetIsMistaken`,
  `Packing.LongListRoundTrip`).
- Deliveries are noted under the sender and the recipient with a ">" in between. Two pairs are told apart unless one
  sender begins with the other one and a ">" (`Delivery.SameKeyExactly`); then a recipient that nobody wrote to can be
  left out (`DeliveryRuns.ConfusedRun`).
- The conversation of a position without a record takes in the last message of the index (`Tags.BlankReachesLast`).
- An important worker that is asked to stop can go to sleep with work in its queue, and can stop with a task left
  when it tests without the lock (`WorkerRuns.LostWakeUp`, `WorkerRuns.LostWakeUpHappens`,
  `WorkerRuns.UnlockedExitExactly`, `WorkerRuns.UnlockedExitLeavesTasks`).

Parameters of the model, where the code calls something that is not part of it: the clock, the encoding of message
IDs, routes for mail, the sort order of search results, zlib (which undoes its own compression, writes at least
ten bytes, and never expands data more than two thousandfold), what becomes of a write to disk, and what becomes
of a command or task that is run.

## Model

| member | source | states |
|---|---|---|
| Base36.B36 | mailpile/util.py:420-440 | the digit loop writes a text that reads back as the number; anything not positive becomes "0" |
| Base36.ParseInvertsDigits | mailpile/util.py:420-440 | a MID reads back as the position it was written for |
| Base36.DigitsAreCanonical | mailpile/util.py:420-440 | digits and capitals only, without leading zeros |
| Base36.EitherCase | mailpile/util.py:420-440 | letters count the same in either case |
| Base36.TextLeqExactly | mailpile/search.py:960 | one text is sorted before another if it is a prefix of it, or smaller where they first differ |
| Base36.TextIsNotNumber | mailpile/search.py:960 | so MIDs are not sorted as numbers: 36 comes before 2 |
| Base36.SortMids | mailpile/search.py:960 | `sorted(list(set(...)))` of MIDs: sorted as text, without repetition, the same members |
| ThreadMerge.ClosedWithoutMarks | mailpile/search.py:915-928 | without "/-" marks, the condition for a merge is that the message is its own root or shares a thread with a reference |
| ThreadMerge.MergeKeepsValidExactly | mailpile/search.py:915-961 | a well-formed thread state stays well formed under a merge if and only if the message and all its references belong to the merged conversations |
| ThreadMerge.MergeIsUnion | mailpile/search.py:915-1011 | the message's thread becomes exactly the union of its old thread and those of its references; every line of every other thread is untouched |
| ThreadMerge.ConsideredFromMeans | mailpile/search.py:917-928 | the references that count begin at the last one with a "/-" mark, or at the first one |
| ThreadMerge.MergeColumns | mailpile/search.py:930-1011 | all messages keep their IDs and subjects, and all but the message keep whom they answer; the message answers the given parent, if there is one |
| ThreadMerge.StrayMessageBreaksThreads | mailpile/search.py:930-961 | a three-message index for which every outcome of the merge is ill formed |
| ThreadRefs.OrderRefs | mailpile/search.py:890-898 | the in-place removal loop leaves the references as they are, in order, but with In-Reply-To last, and only there |
| ThreadRefs.ResolvedStandsFor | mailpile/search.py:904-916 | there is one message for each known ID, and the ghost for the last unknown one, in the order of the IDs |
| ThreadRefs.StandForNamed | mailpile/search.py:904-916 | whatever stands for the IDs like that has exactly the messages that one of them names |
| ThreadIndex.MailIndex.AddNewMsg | mailpile/search.py:1116-1150 | a new message is a thread of its own, and threads stay well formed |
| ThreadIndex.MailIndex.ResolveRefs | mailpile/search.py:904-916 | the references stand for the IDs as `ThreadRefs.ResolvedStandsFor` says; a ghost comes in exactly if an ID is unknown, for the last such ID |
| ThreadIndex.MailIndex.FindConversations | mailpile/search.py:917-928 | walking back over the references finds exactly the conversations up to the first "/-" mark |
| ThreadIndex.MailIndex.MergeConversations | mailpile/search.py:930-961 | the loops that re-point the moved messages and rebuild the root's list give the merged state, whatever the order of the sets they walk |
| ThreadIndex.MailIndex.Thread | mailpile/search.py:915-1011 | the index afterwards is the merged one, and it is well formed if and only if the merge was closed |
| ThreadIndex.ThreadingJoins | mailpile/search.py:904-1011 | in terms of the IDs: under the condition, the message's thread afterwards is its old thread with the threads of all messages that the IDs name, and the ghost; no line of another thread changes |
| ThreadIndex.ThreadingAnswers | mailpile/search.py:887-1011 | the message answers the last reference if it was known before, and else nobody; nobody else answers anybody else than before; IDs and subjects stay |
| ThreadIndex.MailIndex.SetConversationIds | mailpile/search.py:846-1011 | the whole call on any headers: both of these, with In-Reply-To as the last reference; well formed exactly under the condition; every ID still stands for a message that has it |
| ThreadSplit.ReachesIsDescends | mailpile/search.py:1024-1044 | reachability in the map of kids is being a reply-descendant inside the thread |
| ThreadSplit.SplitKeepsValid | mailpile/search.py:1046-1099 | whatever family is cut loose, well-formed threads stay well formed |
| ThreadSplit.SplitIsTwoThreads | mailpile/search.py:1013-1114 | if the root is its own parent, cutting loose another message gives exactly two threads: its reply-descendants, and the rest; no other line changes |
| ThreadSplit.SplitKeepsParents | mailpile/search.py:695-712 | every message but the one that is cut loose keeps its parent, whether family, orphan or bystander, and all keep their IDs |
| ThreadSplit.NewThreadKeepsAnswers | mailpile/search.py:1046-1099 | in the new thread all descend from the message that was cut loose; between other members descent is what it was, unless that message descended from them |
| ThreadSplit.KidGetsOwnThread | mailpile/search.py:1101-1105 | unthreading a root gives a reply its own thread if and only if the root precedes it in the root's own list |
| ThreadSplit.EarlyKidStays | mailpile/search.py:1101-1105 | a thread whose root came in after a reply to it: unthreading the root leaves the reply in another thread |
| ThreadIndex.MailIndex.CollectKids | mailpile/search.py:1024-1029 | the dictionary holds, for every parent key, the members with that key in list order |
| ThreadIndex.MailIndex.GatherFamily | mailpile/search.py:1031-1044 | the worklist ends on every map of kids, cyclic ones too, with exactly the reachable messages, once each |
| ThreadIndex.MailIndex.Reparent | mailpile/search.py:1046-1099 | the three loops leave the split state, with orphans adopted and old lists cleaned; the message is its own parent, every other message answers whom it answered, and a given subject goes to the family alone |
| ThreadIndex.MailIndex.UnthreadMessage | mailpile/search.py:1013-1114 | threads stay well formed for every message, and lines of other threads stay as they are; a message that is not its own parent leaves with exactly its reply-descendants, who keep their parents; in the other branch every message ends with the last kid that it descends from, the kids become their own parents, and nobody else's parent changes |
| ThreadRuns.Converse | mailpile/search.py:846-1011 | threading a message while it is its own root keeps an index without "/-" marks well formed and free of marks, and always joins the threads that the IDs name |
| ThreadRuns.RunOps | mailpile/search.py:846-1150 | over every run of adding, threading and unthreading, threads stay well formed and no mark comes in |
| PostingRoutes.RouteMeans | mailpile/postinglist.py:271-289 | a look-up goes to the longest existing prefix, or else to the first character |
| PostingRoutes.FindContainer | mailpile/postinglist.py:271-289 | the shortening loop finds that file |
| PostingRoutes.DeleteEmptied | mailpile/postinglist.py:159-163 | deleting a container without hits changes no look-up |
| PostingSplit.SplitKeepsRouted | mailpile/postinglist.py:138-220 | without shadows, every term is again in the file of its longest existing prefix |
| PostingSplit.SplitKeepsHits | mailpile/postinglist.py:138-220 | without shadows, a split changes the hits of no term |
| PostingSplit.SplitExactly | mailpile/postinglist.py:138-220 | a split keeps every look-up if and only if no picked name extends one picked before it, and it keeps the routing if and only if that is so |
| PostingSums.CountEntries | mailpile/postinglist.py:187-198 | the two counters are the number of entries, and of the entries that would move under each name |
| PostingGreedy.ShadowExactly | mailpile/postinglist.py:187-218 | some choice of the second loop picks a name behind a prefix of it if and only if the container has a term with at least half of MAX_ITEMS entries whose one-character group is no smaller, and too much is left once that group and all larger ones are gone |
| PostingGreedy.LeadersCastNoShadow | mailpile/postinglist.py:187-205 | if every big term has more entries than the small terms that share its next character, no choice of the second loop shadows anything |
| PostingGreedy.ShadowHappens | mailpile/postinglist.py:187-218 | a container, routed correctly, for which every choice of the second loop picks a name behind a prefix of it |
| PostingStore.Store.Append | mailpile/postinglist.py:251-257 | adds the messages to the hits of one term and changes no other look-up |
| PostingStore.Store.PurgeDeleted | mailpile/postinglist.py:128-136 | the terms that share the container, but the spared one, have exactly their old hits without the deleted messages, and every other term has its old hits; the container is marked as changed exactly if a hit went |
| PostingStore.Store.PickTargets | mailpile/postinglist.py:185-205 | the loop over `total` and `sums` picks a largest sum that is left as long as too much is left, ends, and stops only when what is left is small enough |
| PostingStore.Store.Splits | mailpile/postinglist.py:185-220 | terms move to their first picked prefix and at most MAX_ITEMS entries stay |
| PostingStore.Store.Save | mailpile/postinglist.py:138-183 | a save keeps every look-up exactly when nothing is shadowed, and so whenever the container before the call rules shadows out; it then keeps the routing, and a container that was split is within its limit |
| PostingStore.Store.AppendToJournal | mailpile/postinglist.py:607-619 | the journal entry grows by the messages, and the largest known message never falls |
| PostingStore.Store.Migrate | mailpile/postinglist.py:684-694 | the union of journal and containers is unchanged for every term, and what the tracker covers stays covered |
| PostingStore.Store.GetMaxMsgIdxPos | mailpile/postinglist.py:621-636 | the result is the largest message in the journal |
| PostingStore.Store.UpdateMaxMsgMid | mailpile/postinglist.py:638-661 | the tracker covers the message afterwards, and nothing that was covered is lost |
| PostingStore.Store.Flush | mailpile/postinglist.py:138-183 | saving any containers, up to a save that shadows: none does if and only if no look-up has changed, and if and only if the routing is kept; none does if there is nothing to save, or if with these hits no container could cast a shadow |
| PostingStore.Store.Optimize | mailpile/postinglist.py:541-593 | stopped anywhere, with saves on the way, up to one that shadows: removes only ids of the deleted set and none from the deleted term; a call that is not lazy, or with a large journal, leaves every key that it gets to with exactly its old hits without the deleted set, and nothing of it in the journal; the largest known message is kept in any case; no save shadows if and only if the routing is kept, and so without saves, or if with the hits of before no container could cast a shadow |
| PostingStore.LightCastsNone | mailpile/postinglist.py:187-205 | with less than half of MAX_ITEMS messages for every term, no container can cast a shadow, however the terms are spread over the files |
| PostingRuns.RunOps | mailpile/postinglist.py:84-331 | over every run of journal appends, container appends, saves, purges and optimizations, up to a save that shadows: every term has at least what was there or came in and does not count as deleted, and at most what was there or came in and was not deleted for sure when the term was optimized; a message is covered if and only if it was or the run told of it; no save shadows if and only if the routing is kept, and so without saves, or if with all that was there and comes in no container could cast a shadow |
| PostingRuns.LightRunIsClean | mailpile/postinglist.py:187-205 | in particular if no term can ever have half of MAX_ITEMS messages |
| PostingLosses.LosingRun | mailpile/postinglist.py:138-220 | that bound is sharp: five appends to a fresh index, of terms with at most half of MAX_ITEMS messages, and one save after which a look-up has lost hits, whatever names are picked |
| PostingRuns.PlainMap | mailpile/postinglist.py:84-331 | without purges the two bounds are one, so that the index is a plain map from terms to messages |
| PostingRuns.NothingElseIsLost | mailpile/postinglist.py:128-136 | a message that was there or came in is among the least hits of its term if it never counted as deleted |
| PostingRuns.DeletedIsGone | mailpile/postinglist.py:541-593 | a message that certainly counts as deleted is gone from every term that is then optimized, as long as it does not come in again |
| Collapse.CollapsedOncePerThread | mailpile/search.py:2104-2125 | exactly one hit for each conversation of the input, itself a hit of it, in order of first appearance |
| Collapse.CollapsedMeans | mailpile/search.py:2104-2125 | which hit it is: the last one of a conversation in `all_new`, the first one of any other; a conversation that appears first comes first |
| Collapse.CollapseInPlace | mailpile/search.py:2115-2125 | the loop that overwrites the list it reads computes that; the first hit of a conversation, or the last one if its id is in `all_new` |
| IndexLines.LineRoundTrip | mailpile/search.py:77-97 | a written record reads back with its normalised fields; with the very fields if and only if none has a control character |
| IndexLines.NormAt | mailpile/search.py:77-97 | character by character: tabs and line breaks become spaces, other control characters are left out, all else stays in order |
| IndexLines.LineIsOneLine | mailpile/search.py:81-97 | a record is one line of the file |
| IndexLines.CanonicalExactly | mailpile/search.py:77-157 | a written record is read back as itself at a position if and only if its MID column reads as that position and its thread column is there and does not end in a blank |
| IndexLines.RecordIsCanonical | mailpile/search.py:109-157 | what is stored for a position under its own MID is read back as itself, at that position |
| IndexLines.ReadIsCanonical | mailpile/search.py:111-157 | whatever line was read, an old-format one included, is stable from then on |
| IndexLines.StripIs | mailpile/search.py:111-113 | what is read is what is between the blanks at both ends |
| IndexLines.CharClasses | mailpile/search.py:111-157 | the blanks, and the digits and letters of base 36, one by one |
| IndexLines.ContainsExactly | mailpile/search.py:113-114 | an append mark is found anywhere in a comment |
| IndexLines.OldRecordIsRead | mailpile/search.py:131-147 | a record of the old format gets an empty Cc column and a size of zero after its first six columns |
| IndexLines.EmailLineIsRead | mailpile/search.py:115-124 | the line written for an address is read as that address |
| JournalSteps.RebuiltSays | mailpile/search.py:99-157 | the index built from a file has the last line of every position |
| JournalCounts.HighestMean | mailpile/search.py:115-157 | the sizes: one more than the highest address number, and than the highest position |
| JournalCounts.MarksMean | mailpile/search.py:111-114 | the counter of changes is the number of append marks |
| JournalCounts.ItemsMean | mailpile/search.py:115-157 | the counter of lines is the number of records and addresses |
| JournalCounts.CountIsNoted | mailpile/search.py:326-331 | a new file says how many messages there are |
| JournalCounts.DecimalRoundTrip | mailpile/search.py:326-331 | in decimal digits |
| JournalSteps.StepKeeps | mailpile/search.py:257-359 | every step of a save, with edits in between, keeps the saving invariant and durability, but for a failure between the renames |
| JournalRuns.RunIsDurable | mailpile/search.py:257-359 | over every run of edits of any kind, appends, full saves and failures, replaying the file gives every record that is neither pending nor at a position that a record which does not fit is stored at or names |
| JournalRuns.RestartLosesOnlyPending | mailpile/search.py:99-210 | a restart loses no record outside MODIFIED that the edits of the run have not spoilt, and no address counted as saved |
| JournalCounts.ChangesAreMarks | mailpile/search.py:257-359 | over every run in which no write fails, the counter of changes is the number of append marks in the file, so that a restart finds the same |
| JournalCounts.FullSaveExactly | mailpile/search.py:271-283 | the index is written anew if and only if there is no file, or, with nobody quitting, it has had more than one append for 200 items and 25 more, or has more lines than items, a tenth more, and 500 |
| JournalCounts.FileStaysSmall | mailpile/search.py:257-359 | over every run of one process without saves while quitting, whatever fails: at most one append for 200 items and 26 more, and at most two lines for an item, a tenth more, and 500 |
| JournalCounts.FreshRunCounts | mailpile/search.py:257-359 | both, from an empty index |
| JournalRuns.GapExactly | mailpile/search.py:344-357 | a reading of that step, which `JournalRuns.GapHappens` reaches and `JournalRuns.RunIsDurable` excludes: a failure between the renames is harmless if and only if every record was pending and no address was saved |
| JournalRuns.GapGoesUnnoticed | mailpile/search.py:257-268 | a reading of the step after it: a `save_changes` without new changes finds nothing to do |
| JournalRuns.GapHappens | mailpile/search.py:257-359 | a run from an empty index that ends there: a stored and saved record is gone from the disk, and `save_changes` does nothing |
| JournalEdits.ReadBackExactly | mailpile/search.py:77-157 | whatever is stored at a position: after any run that leaves the position saved, a restart gives the stored line if and only if the record fits the position by its MID and thread columns; unless another record that does not fit its own position names this one |
| JournalEdits.SavedIsReadBackExactly | mailpile/search.py:315-359 | in particular after one full save and a restart |
| JournalEdits.SpoiltBySave | mailpile/search.py:99-157 | a record that does not fit, after a full save and a restart: its position is blank, the position that it names has it if that one comes before it or had no record, and every other position has what it had |
| JournalEdits.SpoiltByAppend | mailpile/search.py:257-313 | the same after an append: its position has the old record, the position that it names has it in any case, and every other position has what it had |
| JournalIndex.SaveIsRun | mailpile/search.py:257-359 | a whole save is a run of the single steps |
| JournalIndex.MetadataIndex.SetMsgAtIdxPos | mailpile/search.py:1624-1652 | the list is padded, the line stored, the position marked as modified |
| JournalIndex.MetadataIndex.AddEmail | mailpile/index/base.py:42-50 | a new address gets the next number |
| JournalIndex.MetadataIndex.Load | mailpile/search.py:99-210 | the loop over the lines builds exactly what the file says, addresses and counters included; a fresh index is durable afterwards |
| JournalIndex.SavedAddressesAreLoaded | mailpile/search.py:286-341 | loading what a full save, or an append to a file with the earlier addresses, has written gives all addresses |
| JournalIndex.MetadataIndex.AddGhosts | mailpile/search.py:212-222 | every position that the posting list knows of gets a record, those read before stay, and the index stays durable |
| JournalIndex.MetadataIndex.Save | mailpile/search.py:315-359 | a full save ends in the state of the steps, rolled back if the write fails; unless it fails between the renames, a durable index with quoted addresses stays durable |
| JournalIndex.MetadataIndex.SaveChanges | mailpile/search.py:257-313 | nothing, an append or a full save, as the counters say; afterwards nothing is pending and every address saved, or everything is as before if the write fails; durable under the same condition |
| Tags.ConversationIsThread | mailpile/search.py:1654-1683 | on well-formed threads `get_conversation` names exactly the members of the thread |
| Tags.ConversationExactly | mailpile/search.py:1654-1683 | on any records, malformed threads included: the listed replies, the head unless the root is among them, and the message itself unless it was taken for the head |
| TagIndex.AboutIsThreads | mailpile/search.py:1705-1714 | so a call on the conversations of some messages is about exactly the members of their threads |
| Tags.BlankReachesLast | mailpile/search.py:1654-1683 | the conversation of a position without a record takes in the last message of the index |
| JournalEdits.TaggedBogusFits | mailpile/index/msginfo.py:30-31 | the record that tagging stores for a position without one fits a single position of the whole index, so that everywhere else the tag is lost |
| Tags.SetKeepsAgreement | mailpile/search.py:226-234 | storing a record keeps TAGS in agreement with MSG_TAGS, and INDEX_THR with the root part of MSG_THREAD_MID |
| Tags.ReviseKeepsAgreement | mailpile/search.py:1726-1822 | tagging or untagging any set of messages keeps both agreements |
| Tags.ReviseMeans | mailpile/search.py:1729-1819 | of all known tags of all messages, exactly the given tag of the named messages changes |
| Tags.ReviseExactly | mailpile/search.py:1729-1819 | what becomes of a record: nothing if the tag is no news to it; else it gains or loses the tag and all tags that are not known, and no other column changes |
| TagIndex.TagIndex.GetMsgAtIdxPos | mailpile/index/base.py:170-189 | the evicting cache returns the record of the index; at most one object stands for a position |
| TagIndex.TagIndex.UpdateMsgTags | mailpile/search.py:226-234 | the position is in the sets of its own tags and in no other |
| TagIndex.TagIndex.SetMsgAtIdxPos | mailpile/search.py:1624-1652 | stores the record of an object that may be the cached one, and keeps agreement and cache coherent |
| TagIndex.TagIndex.Revise | mailpile/search.py:1729-1754 | writing to the cached object, the index and the cache, one message, leaves no stale object |
| TagIndex.TagIndex.AddTag | mailpile/search.py:1693-1774 | exactly the named messages in range, with their conversations if asked, have the tag afterwards; no other known tag, column or record changes; returned are exactly those that lacked it |
| TagIndex.TagIndex.RemoveTag | mailpile/search.py:1776-1836 | likewise for removal |
| TagIndex.TagIndex.DeleteMsgAtIdxPos | mailpile/search.py:1578-1618 | the message loses all known tags and keeps its thread; no other record changes; agreement is kept |
| TagRuns.RunOps | mailpile/search.py:1572-1836 | over every run of storing, tagging, untagging and deleting, TAGS has exactly the messages whose records have the tag, and no cached object is stale |
| CommandCache.CleanMeans | mailpile/command_cache.py:61-84 | an entry without dirty requirements is not timed out, and no kept mark touches it |
| CommandCache.StaleExactly | mailpile/command_cache.py:78-84 | an entry has dirty requirements if and only if it has timed out or a later mark that is kept shares a requirement with it |
| CommandCache.VisitsMean | mailpile/command_cache.py:108-140 | what the loop does to each entry: young and clean ones stay; any other has a new result, stamped and with no longer a life than allowed, or has timed out |
| CommandCache.CommandCache.GetDirtySet | mailpile/command_cache.py:78-84 | the loop collects what was marked after the given time, and the timeout marker |
| CommandCache.CommandCache.GetResult | mailpile/command_cache.py:61-76 | without interference, hands out an entry exactly when it is old enough and clean, and extends it |
| CommandCache.CommandCache.ExpireOld | mailpile/command_cache.py:96-105 | an entry is there afterwards if and only if it was and has not expired, and a mark if and only if it is young enough |
| CommandCache.CommandCache.Refresh | mailpile/command_cache.py:91-140 | without interference: an entry is there afterwards if and only if it had not expired when the refresh began, and is then exactly as `CommandCache.VisitsMean` says |
| CacheRuns.RunKeepsInv | mailpile/command_cache.py:47-140 | over every interleaving of look-ups, stores and marks with the single steps of refreshes in time, forgotten marks are paid for by every entry that is not exposed |
| CacheRuns.ServedIsFresh | mailpile/command_cache.py:47-140 | if the gaps between refreshes plus the lag are within the life of a mark, a dirty-checked look-up whose entry is still the cached one, and not between the removal of its marker and the store of the new one, hands out an entry that no mark made before it read the marks touches |
| CacheRuns.EntryStaysExactly | mailpile/command_cache.py:47-140 | over every run: an entry that is not stored again is still there if and only if it was not expired at the start of any refresh |
| CacheRefresh.RefreshKeepsInv | mailpile/command_cache.py:91-140 | a whole refresh that nothing comes between, as the method computes it, is a sequence of the steps and keeps that invariant |
| CacheRefresh.BeginView | mailpile/command_cache.py:96-105 | the step that begins a refresh is what the method does |
| CacheRefresh.LookUpIsSteps | mailpile/command_cache.py:61-76 | a look-up that nothing comes between answers, step by step, exactly when the method hands out the entry; its entry is then in its place unless it is exposed |
| CacheRefresh.AnswerView | mailpile/command_cache.py:73-76 | handing out the entry extends its life as the method does, and changes nothing else |
| CacheStale.FreshExactly | mailpile/command_cache.py:96-105 | for every length of gap: after all runs with gaps of at most that length, look-ups of entries in their place and not exposed are fresh, if and only if the gap plus the lag is at most the life of a mark |
| CacheStale.ExposedServesStale | mailpile/command_cache.py:125-132 | a run with gaps of at most nine seconds in which a look-up between the removal of the marker and the store hands out a stale result |
| CacheStale.OvertakenServesStale | mailpile/command_cache.py:61-76 | a run with gaps of at most nine seconds in which a look-up that refresh overtakes hands out a stale result |
| ReflowWords.SplitJoin | mailpile/util.py:628-643 | splitting joined words gives the words back |
| ReflowWords.CharClasses | mailpile/util.py:591-592 | the blanks and the word characters of ASCII, one by one |
| ReflowWords.FillTight | mailpile/util.py:634-643 | filling the words of filled lines again makes the same lines |
| Reflow.ReflowIdempotent | mailpile/util.py:594-649 | reflowing a list of lines a second time changes nothing |
| Reflow.ReflowKeepsWords | mailpile/util.py:615-649 | the sequence of words is kept |
| Reflow.ReflowAround | mailpile/util.py:645-647 | a line that cannot be part of a paragraph stays, and separates what is around it |
| Reflow.OpensExactly | mailpile/util.py:621-625 | a line opens a paragraph if and only if it is longer than the width less ten, starts with a word that has a word character, and does not end in two spaces |
| Reflow.OtherLinesStay | mailpile/util.py:645-647 | a line that is in no paragraph stays as it is, in its place |
| Reflow.ParagraphsAreFilled | mailpile/util.py:622-643 | every paragraph becomes lines with the same words, no line longer than the width unless it is a single word, and no line that could have taken the next word |
| ReflowText.ReflowWidth | mailpile/util.py:634-647 | every line of the result is a line of the input, within the width, or a single word |
| ReflowText.ReflowStableExactly | mailpile/util.py:610-649 | the documented stability holds if and only if the text does not end in a blank line below another line |
| ReflowText.FillLines | mailpile/util.py:634-643 | the inner loop fills lines as the specification does |
| ReflowText.SplitAtBreak | mailpile/util.py:617 | the three line breaks |
| ReflowText.ReflowLoop | mailpile/util.py:615-649 | the outer loop, with quoting, computes the reflowed text |
| VCardFold.FoldWithin75 | mailpile/vcard.py:152-163 | every physical line is at most 75 octets, without cutting a character (section 3.2 of RFC 6350) |
| VCardFold.Within75Means | mailpile/vcard.py:152-163 | that is: no stretch without a line break takes more than 75 octets of UTF-8 |
| VCardFold.FoldFull75 | mailpile/vcard.py:152-163 | a line is broken only before a character that would have taken it to 75 octets |
| VCardFold.QuoteHides | mailpile/vcard.py:57-64 | quoted text has no line break, and commas and semicolons only behind a backslash |
| VCardFold.UnwrapFold | mailpile/vcard.py:892-894 | unfolding undoes folding for every line without line breaks |
| VCardFold.RemovesPair | mailpile/vcard.py:892-894 | unfolding drops a line break with the blank behind it, wherever it is |
| VCardFold.Utf8RoundTrip | mailpile/vcard.py:152-163 | the octets that are counted for a character stand for it (section 3 of RFC 3629) |
| VCardFold.FoldLine | mailpile/vcard.py:152-163 | the loop computes the folded line |
| VCardLine.ParseLine | mailpile/vcard.py:175-225 | the loop over characters is the two-state parser |
| VCardLine.EscapeMeans | mailpile/vcard.py:175-225 | a backslash stands for the five characters that are quoted, and otherwise for itself |
| VCardLine.RoundTripExactly | mailpile/vcard.py:143-225 | writing, folding, unfolding and parsing gives the line back, names and keys in lower case, for every value string, if and only if name, keys and attribute values are free of the separators (section 3.4 of RFC 6350) |
| VCardLine.AsVCardLine | mailpile/vcard.py:143-163 | the method writes that line, folded |
| VCardMerge.SourceLines | mailpile/vcard.py:608-673 | after a merge the lines with a source's pid are exactly those of the input that may be merged and the retained e-mail and preferred lines |
| VCardMerge.OtherSourcesStay | mailpile/vcard.py:638-673 | other sources keep all their lines with their versions, and get none |
| VCardMerge.OwnLinesStay | mailpile/vcard.py:638-673 | lines that no source claims are never lost |
| VCardMerge.MergedLine | mailpile/vcard.py:638-673 | every line: when it is there, that old ones keep preference and rank and new ones have those of the input, and where the source has the new version |
| VCardMerge.DedupedMeans | mailpile/vcard.py:611-636 | a line that is given several times counts as the first, its rank raised by one for every other |
| VCardMerge.SimpleVCard.MergeTwice | mailpile/vcard.py:555-675 | two calls with the same input: the first one fails exactly when a merge does, and if it succeeds, the second one reports no change and makes none |
| VCardMerge.SimpleVCard.GetPid | mailpile/vcard.py:519-547 | a known source keeps its pid, a new one gets the smallest that is free, and it fails only if none is left |
| VCardMerge.SimpleVCard.DropOld | mailpile/vcard.py:638-658 | old lines go, lose the pid or stay as they should, and the changes are counted; it fails exactly if a line would have to go that cannot be removed |
| VCardMerge.SimpleVCard.AddNew | mailpile/vcard.py:660-673 | the rest of the input is added or gets the pid; it fails exactly if a new line clashes |
| VCardMerge.SimpleVCard.Merge | mailpile/vcard.py:555-675 | the whole call: the merged card and the number of changes, and exactly when it raises an error |
| MboxScan.MessageIsDelim | scripts/mbox-minimal.py:9-25 | a message starts where the delimiter is, in the file with a line break in front |
| MboxScan.ScanBuffer | scripts/mbox-minimal.py:36-47 | one round notes all delimiters of the buffer, and dropping all but 128 characters loses none |
| MboxScan.Scan | scripts/mbox-minimal.py:25-48 | for every file and every way of cutting it into reads: exactly the positions of `From ` at a line start, in order; the assertion on `fd.tell()` holds each round |
| BitMask.IntlistToBitmask | mailpile/util.py:473-479 | the or-ing loop computes the mask |
| BitMask.MaskHas | mailpile/util.py:473-479 | the mask of a list has just the bits of its members |
| BitMask.MaskIsShort | mailpile/util.py:473-479 | the last byte of a mask has a bit, but for the mask of the empty list, one zero byte |
| BitMask.BitmaskToIntlist | mailpile/util.py:482-488 | the nested loops read the mask |
| BitMask.BitmaskRoundTrip | mailpile/util.py:473-488 | reading back gives the members, each once and in ascending order |
| BitMask.OrderedRoundTrip | mailpile/util.py:473-488 | an ascending list comes back as it was |
| Packing.PackRoundTrip | mailpile/packing.py:35-91 | unpacking undoes packing of unsigned numbers of any width |
| Packing.ToBytesAt | mailpile/packing.py:35-91 | bytes are in order of weight, lowest first |
| Packing.UnpacksWhole | mailpile/packing.py:35-91 | bytes that do not make whole numbers are refused, and no others |
| Packing.IntSetRoundTripExactly | mailpile/packing.py:9-48 | a packable set comes back if and only if it does not have 4 to 15 members the first of which is 0xffffffff |
| Packing.LongListRoundTrip | mailpile/packing.py:51-91 | a packable list comes back, unless it has 3 to 15 numbers and starts with -1; then what comes back is what zlib makes of the others |
| Packing.PackableExactly | mailpile/packing.py:51-81 | a list can be packed if and only if it is not empty and 64 bits with a sign hold every number |
| StorageBacked.StorageBackedSet.Save | mailpile/packing.py:124-127 | what is stored can be loaded again exactly if it is packable without looking compressed |
| StorageBacked.StorageBackedSet.Write | mailpile/packing.py:129-142 | a write leaves the set in step with the store, or marked as dirty, except for sets that cannot be loaded again |
| SearchHistory.CompressExactly | mailpile/search_history.py:47-57 | compressed results come back with their order exactly if there is no colon in its name |
| SearchHistory.SearchHistory.Get | mailpile/search_history.py:73-82 | touches the entry and nothing else; gives plain results as they are, and compressed ones unpacked and sorted again |
| SearchHistory.SearchHistory.Expire | mailpile/search_history.py:84-108 | an entry stays if and only if it was touched within the time to live, and keeps its plain results if and only if within the shorter span; a change is noted exactly if something was evicted |
| SearchHistory.HistoryKeepsSearches | mailpile/search_history.py:59-108 | over every run of add, get and expire, an entry that is not evicted gives back its terms, its order and the same set of results |
| SearchHistory.SurvivesExactly | mailpile/search_history.py:59-108 | over every run: an entry is there if and only if every expiry after its last touch came within the time to live |
| SearchOrders.CollapsingSortKeepsExactly | mailpile/search.py:2104-2125 | an order that collapses conversations loses no result of a search, as `SearchHistory.HistoryKeepsSearches` requires, if and only if no two results are in one conversation |
| StatusMix.BubblyMix | mailpile/crypto/state.py:96-117 | a bubbly node keeps a status that all bubbles share, and gets the mixed form of the highest-ranked one otherwise |
| StatusMix.OrderIndependent | mailpile/crypto/state.py:88-117 | the result does not depend on the order or repetition of bubbles |
| StatusMix.NeutralMix | mailpile/crypto/state.py:104-117 | a node that is not bubbly has the base of the highest-ranked status, plain exactly if the last bubble has it |
| StatusMix.EncryptionIsRanked | mailpile/crypto/state.py:120-126 | the encryption statuses are a ranking in which every status but "none" follows its mixed form |
| StatusMix.SignatureIsRanked | mailpile/crypto/state.py:129-141 | the signature statuses are such a ranking |
| CryptoState.CryptoInfo.MixIn | mailpile/crypto/state.py:96-117 | mixing in one bubble stays within the statuses and follows the ranks; the details follow the more exciting one |
| CryptoState.CryptoInfo.MixBubbles | mailpile/crypto/state.py:88-94 | the loop starts from the part's own status and mixes in exactly the bubbly bubbles |
| CryptoState.BubblyRanksAre | mailpile/crypto/state.py:88-94 | those are the ranks of what the bubbly ones found |
| CryptoState.CryptoInfo.BubbleUp | mailpile/crypto/state.py:72-86 | a bubbly context joins the bubbles of all that contain it, once each; a neutral one joins none |
| CryptoState.MixedName | mailpile/crypto/state.py:104-117 | in names: "mixed-" and the name of the most exciting status |
| WorkerSteps.StepKeeps | mailpile/workers.py:201-304 | every step keeps the invariant, and taking a task never finds the queue empty |
| WorkerRuns.WorkerIsSafe | mailpile/workers.py:201-304 | over every interleaving: no pop from an empty queue; every accepted task is queued, delayed, running or ended, exactly as often as accepted; no delayed task comes in early |
| WorkerRuns.FirstComeFirstServed | mailpile/workers.py:201-304 | over every run without tasks that are to be first, what is queued is worked on in order, before anything that comes later |
| WorkerRuns.FirstIsNext | mailpile/workers.py:201-221 | a task that is to be first is taken next, and the others wait as they were |
| WorkerRuns.TakeMeans | mailpile/workers.py:276-283 | delayed tasks come in exactly when the last queued one is taken: all that are due, and no other |
| WorkerRuns.FailedIsQueuedAgain | mailpile/workers.py:369-372 | after any run of an important worker, a task that fails is queued again, last, unless one of its name is waiting |
| WorkerRuns.ImportantNeverGivesUp | mailpile/workers.py:369-372 | over every run in which no task fails while one of its name is waiting, an important worker gives up on no task |
| WorkerRuns.EndMeans | mailpile/workers.py:285-301 | a task that is done is logged, and may stop the worker; one that postpones itself is delayed by as much as it asked for, or brings the worker down if it has no session |
| WorkerRuns.OneMoreTask | mailpile/workers.py:249-304 | once an ordinary worker has been told to die, it begins at most one more task |
| WorkerRuns.ImportantExit | mailpile/workers.py:264-372 | at the locked exit of an important worker, after any run: it was asked to stop earlier, its queue is empty, and every accepted task has ended or is delayed |
| WorkerRuns.LostWakeUp | mailpile/workers.py:268-272 | a reading of the single steps, for `WorkerRuns.NeverStuckUnasked`: the only one after which a worker has come to wait, not notified, with work in its queue is that in which an important worker, asked to stop, has got the lock back after work arrived |
| WorkerRuns.LostWakeUpHappens | mailpile/workers.py:268-272 | a run that ends like that |
| WorkerRuns.NeverStuckUnasked | mailpile/workers.py:264-304 | over every run in which it is not asked to stop, a worker never waits, not notified, on a queue with work |
| WorkerRuns.UnlockedExitExactly | mailpile/workers.py:346-367 | after the last unlocked test and any new tasks, the exit leaves an empty queue if and only if it was empty and no new task came for it |
| WorkerRuns.UnlockedExitLeavesTasks | mailpile/workers.py:346-367 | a run whose unlocked exit leaves an accepted task in the queue |
| Worker.Worker.AddTask | mailpile/workers.py:201-221 | the search for namesakes and the insertion are those of the protocol |
| Worker.Worker.TakeTask | mailpile/workers.py:276-283 | takes the first task and, if it was the last, lets in the delayed ones that are due |
| Worker.Worker.TaskEnded | mailpile/workers.py:285-301 | a task that ends, postpones itself or fails goes where the protocol says |
| Cron.LongestIsLargest | mailpile/workers.py:75-89 | the search finds the longest sleep up to a minute that divides every interval, if there is one of two seconds or more |
| Cron.Cron.AddTask | mailpile/workers.py:48-73 | afterwards the sleep divides every interval, and no longer one up to a minute does |
| Cron.Cron.CancelTask | mailpile/workers.py:91-103 | the sleep is right afterwards if and only if it was right before or some sleep of two seconds or more divides what is left |
| Cron.CancelLeavesWrongSleep | mailpile/workers.py:91-103 | a schedule for which it is not |
| Delivery.SameKeyExactly | mailpile/smtp_client.py:107 | two pairs of sender and recipient have one key if and only if they are the same, or one sender begins with the other one and ">", and the recipients make up for it |
| Delivery.PendingAt | mailpile/smtp_client.py:104-112 | pending are exactly the recipients that are not blank and that no event marks, each in its place |
| Delivery.OnRouteAt | mailpile/smtp_client.py:114-133 | a group has exactly the pending recipients of its route, each in its place |
| Delivery.GroupsPartition | mailpile/smtp_client.py:99-134 | the groups of a tuple partition the recipients that no event marks as delivered |
| DeliveryRuns.RoutedExactly | mailpile/smtp_client.py:99-134 | over every run of calls: a call routes a recipient if and only if the tuple names it, no event of the tuple marked it at the start, and no call before delivered to it and marked it there |
| DeliveryRuns.RoutedByName | mailpile/smtp_client.py:99-134 | the same without keys, from events without marks: a call routes a recipient if and only if the tuple names it, it is not blank, and no call before delivered and noted a group that names it for this sender, or for one that is confused with it |
| DeliveryRuns.NamesPlainly | mailpile/smtp_client.py:105-112 | without ">" in the senders, to name it is to have that sender and that recipient |
| DeliveryRuns.ConfusedRun | mailpile/smtp_client.py:105-112 | a run in which a recipient that nobody wrote to is not routed, for a ">" in a sender |
| DeliveryRuns.DeliveredIsNeverRouted | mailpile/smtp_client.py:105-112 | a recipient of a group that a call delivered and marked is in no group of a later call with the same sender and event |
| Delivery.RouteOne | mailpile/smtp_client.py:101-133 | the loops over recipients and events make those groups |
| Delivery.RouteTuples | mailpile/smtp_client.py:99-134 | all tuples in turn; no group has a recipient that an event of the group marks |
| Delivery.ClearFlags | mailpile/smtp_client.py:148-153 | clearing the flags of the recipients to come unmarks nobody, even if tuples share events |
| Delivery.PartMeans | mailpile/smtp_client.py:381-396 | what is marked of a group when the marking ends early: all recipients with the first events, and the first ones with the next |
| Delivery.SendMail | mailpile/smtp_client.py:137-399 | with failures at any point: the groups delivered are those of the attempts before the first failure, and the call succeeds if and only if there is none; afterwards exactly those are marked that were before, whose group was delivered, or, when an error ends the marking of one group, the first of its events and recipients |
| Delivery.AllGoThrough | mailpile/smtp_client.py:137-399 | if every attempt goes through and every group is tried, all groups are delivered |

## Left out

- Encryption, hashing, GnuPG and zlib themselves: functions or parameters.
- Message parsing, keyword extraction, dates and addresses: they depend on modules and regular expressions outside of this layer.
- Subject threading (mailpile/search.py:967-1000): never reached, as splitting a string never gives an empty list.
- `GlobalPostingList.remove` and `PostingList.remove` (mailpile/postinglist.py:703-705, 322-325): the first calls a `save` that its class does not define.
- Posting lists that are held across a split, and containers that are evicted and loaded again: a container counts as a file from the moment it is loaded.
- PostingStore.Store.Save: look-ups go to the files. The code looks in `PLC_CACHE` first (mailpile/postinglist.py:87-91), where a container whose file a save has deleted stays under its name; if a later split of its parent picks that name, look-ups get the empty container until it is evicted.
- PostingStore.Store.Splits: names are all chosen before anything is moved; in the code each name is chosen and served in turn, with the same result, as moving changes neither counter.
- PostingStore.Store.Optimize: `keys` and `stopAt` stand for the random selection and for running out of time, and `flushes` for which containers are saved on the way. After a save that shadows, the call, and a run that it is part of, is followed no further.
- PostingStore.Store.UpdateMaxMsgMid: the journal is always loaded; without one the code raises an error here (mailpile/postinglist.py:650-655).
- CommandCache.CommandCache.Refresh: exceptions that the code does not catch, which end a refresh early, and refreshes that run at the same time, which the single worker that runs them rules out, are not modelled.
- CommandCache.CommandCache.GetResult: the steps of look-ups among those of other threads are in `CacheProtocol`.
- JournalIndex.MetadataIndex.Load: a MID with a sign or with blanks in it counts as a bad line, and the exception for too many bad lines, the search orders and the tables of message IDs and pointers are left out.
- JournalIndex.MetadataIndex.SaveChanges: runs here without interference; edits in between are in the steps of `Journal`.
- JournalRuns.RunIsDurable: the display names of addresses are not followed, as renames of saved ones are only written by a full save (mailpile/index/base.py:46-49); that no saved address is missing is part of it.
- JournalCounts.ChangesAreMarks: after an append that fails half-way, the file can have marks that are not counted.
- IndexLines.LineRoundTrip: fields are texts; UTF-8 and other characters that Unicode counts as control characters are not told apart.
- TagIndex.TagIndex.AddTag: the clearing of message IDs for the trash tag, the posting-list note and the dirty marks are left out.
- TagIndex.TagIndex.GetMsgAtIdxPos: positions are not negative; a conversation of a position without a record reads the last message through position -1, which is modelled, but not cached.
- Collapse.CollapseInPlace: the sort before it is left out.
- ReflowText.ReflowLoop: word characters and blanks are those of ASCII, and lines end at `\n`, `\r` or `\r\n`.
- VCardLine.RoundTripExactly: case is that of ASCII letters; splitting a whole card into lines is left out.
- VCardMerge.SimpleVCard.Merge: lines are values in a map by name and value, so that their order, line ids, aliasing, and an input line that equals another one as a dictionary are not captured; the sort of the input only brings equal lines together.
- MboxScan.Scan: the search for Message-IDs in the buffer is left out.
- StorageBacked.StorageBackedSet.Write: one method stands for all writing methods of a set; lists are left out.
- SearchHistory.SearchHistory.Add: the fingerprint is given.
- CryptoState.CryptoInfo.MixBubbles: the entries other than the status are one value, and all contexts of a tree have the same statuses.
- WorkerRuns.WorkerIsSafe: pauses for the user, the interactive session and spurious wake-ups are left out; a task without a session that postpones itself ends the worker, and counts as ended.
- WorkerRuns.UnlockedExitExactly: a unique task that is to be first as well as delayed, which nothing in the program asks for, is not considered.
- Cron.Cron.AddTask: the random first time is a parameter, and intervals are whole seconds; running the tasks is left out.
- Delivery.SendMail: connections, messages and the data of events other than the flags are left out; a tuple without a list of events, for which the code raises an error, is not modelled.
- HTTP, user interface, plugins, mail sources, configuration: plumbing over libraries.
