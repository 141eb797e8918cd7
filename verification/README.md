# Verified models of Fabric's hard cores

Dafny models of the parts of Fabric whose promises range over every order of arrival, every cut of a
stream and every interleaving, with proofs of those promises. `dafny verify dfyconfig.toml` checks
everything.

**Speech (`party-cf/src/parlume-aura.ts`).** `SentenceReader.dfy` reads one sentence per line from a
body that arrives in chunks. `SentenceFeed.dfy` is the reorder buffer of numbered parts with its one
blocking consumer. `PlaybackSpec.dfy`, `PlaybackTheorems.dfy`, `PlaybackBytes.dfy`,
`PlaybackCuts.dfy`, `PlaybackHeard.dfy` and `Playback.dfy` are the player: clips aligned to whole 16-bit
samples, a first-in-first-out outlet, silencing, failure, how clips are cut, and the count of sentences
that were heard. `SpeechLimits.dfy`, `Lines.dfy` and `Sequences.dfy` hold what they share.

**Around it.** `BargeIn.dfy` (the greedy phrase matcher and its tables), `RepairScan.dfy`,
`RepairTransaction.dfy`, `RepairDocument.dfy` and `RepairRun.dfy` (quote-artifact repair),
`InstallLock.dfy` with `InstallScript.dfy` (the start-up script of many containers on one volume),
`PatternStream.dfy` (events of a streamed run), `PersonalDrop.dfy` (the two-phase deletion of personal
data), `PageFiles.dfy` (storage keys and deleting a page's files), `ProviderCache.dfy` (the bounded
provider cache) and `ReplayBuffer.dfy` (a room's message buffer).

**Form.** Code that updates fields or loops is a class or a method with loops, proved equal to a
specification on values; the properties are proved about that specification. Asynchronous code is cut
at its awaits, and the shell script at its commands: one method of the class, and one event of the
specification, is what runs between two of them. A run is any sequence of events, those of the
environment (arrivals, the idle timer, silencing, the outlet's sends, other writers, other containers)
included. Parsing, normalising text, cutting text into words and finding a wake phrase are parameters:
the proofs hold whatever they compute.

## What the proofs found

- `heard` can be too small. The outlet counts every byte `clear` drops, its own opening silence too.
  When it falls idle between two sentences and opens again, silence dropped with the second hides a
  first one that was sent to its end (`OpeningSilenceHidesASentence`). As long as the outlet plays
  other audio only before the reply's first byte, `heard` is exact after a silenced or completed run
  (`HeardIsExact`), but for a first clip of a single byte; it is never too large.
- After a failed synthesis `heard` is counted before the queue has flushed: a sentence of which not a
  byte was sent can count (`UnsentSentenceCounts`). While the reply is current the count is right exactly
  when nothing waits but samples of the clip that failed (`HandedOverCountsTheQueue`).
- `complete` rests on an assumption that its callers keep: currency does not come back. A reply that was
  not current when a sentence arrived, and is current again at the end, would call itself complete with
  the rest never asked for (`RegainedCurrencyHidesARest`); `CompleteIsAllExactly` is the exact condition.
- The cut of a body into chunks can be observed only through a line of more than 12,000 characters; the
  length guard refuses an unfinished line but not one that arrives whole. A sentence padded beyond that
  is spoken or refused as it happens to be cut (`LongSentenceDependsOnItsCut`); `ChunkIndependenceExactly`
  says of the lines alone when the cut cannot show.
- A last `data:` line without its newline is dropped by the pattern stream, while a last JSON line is
  not (`FinalNewline`).
- The repair's compare-and-set does not look at the editor, so a snapshot can name the editor before
  the one whose content it holds (`SnapshotMayNameAnEarlierEditor`): exactly when the last change of the
  row since the repair read it left another editor (`SnapshotNamesItsEditor`).
- The install can run twice, because the marker is looked for before the lock is taken
  (`InstallCanRunTwice`); once the marker is there, it can exactly while some container is between that
  look and its install (`AnotherInstallExactly`).
- A container can wait for ever: when the one that won the lock fails three times and exits, a waiter
  never takes its place (`AWaiterCanStarve`). Without a new container, a waiting one can get past the script
  exactly while the marker is there, or some container has yet to look for it, is on its way to an
  install, or is about to leave the marker (`WaiterPassesExactly`).
- The comment in `tenant-paths.ts` that one page's prefix is never the start of another's holds for ids
  without a slash (`PrefixesAreDisjoint`); `SlashesCollide` is a case where it fails and
  `PagesMeetExactly` says when two pages of one owner share a key.
- The joined cache key is ambiguous exactly for API keys that start one another at `::`
  (`CollisionsExactly`).
- Both forms of the personal-data sweep select the same rows except personal rows whose owner is not a
  listed user (`ScopesAgreeExactly`).

## Model

| member | source | states |
|---|---|---|
| SentenceReaderTheorems.StreamMeaning | party-cf/src/parlume-aura.ts:107-135 | From any point on, reading any chunks gives what the lines of the whole text give, or stops, refusing, at a line of the text that is too long, with the sentences before it yielded |
| SentenceReaderTheorems.ChunkIndependence | party-cf/src/parlume-aura.ts:77-140 | When every line is at most 12,000 characters, every chunking yields the same sentences and the same success or failure as the whole text |
| SentenceReaderTheorems.CutAtLongLine | party-cf/src/parlume-aura.ts:123-125 | For every over-long line that is reached there is a chunking that stops there |
| SentenceReaderTheorems.StopsAtOnce | party-cf/src/parlume-aura.ts:85-106 | Lines end the reading as an invalid sentence with nothing yielded if and only if the first of them that is not blank is refused |
| SentenceReaderTheorems.ChunkIndependenceExactly | party-cf/src/parlume-aura.ts:107-135 | All ways to cut a text into chunks and a decoder's remainder agree with the whole text if and only if at every over-long line that is reached the first line from there that is not blank says nothing or too much |
| SentenceReaderTheorems.LongSentenceDependsOnItsCut | party-cf/src/parlume-aura.ts:115-125 | A sentence on a line of more than 12,000 characters is spoken when its newline arrives with it and refused when the newline comes later |
| SentenceReaderTheorems.CutsCanBeObserved | party-cf/src/parlume-aura.ts:123-125 | There are a parser and a text whose chunkings disagree |
| SentenceReaderTheorems.StreamSpeakable | party-cf/src/parlume-aura.ts:85-106 | Every yield is non-empty and at most 2,000 characters, at most 40 of them and 8,000 characters in all, however the body was cut |
| SentenceReaderTheorems.SentencesAreSpoken | party-cf/src/parlume-aura.ts:85-106 | Lines that each say one sentence, at most 40 of them and 8,000 characters, yield exactly what they say, in order and without the space around it |
| SentenceReaderTheorems.BlankLinesAreSkipped | party-cf/src/parlume-aura.ts:86-88 | A blank line changes nothing wherever it is |
| SentenceReaderTheorems.StopsAtTheFirstRefused | party-cf/src/parlume-aura.ts:89-104 | After lines that are spoken, a line that is not JSON, says nothing or too much, or is one too many stops the reading with the sentences before it and that reason |
| SpeechLimits.ExceedsExactly | party-cf/src/parlume-aura.ts:100-104 | One more sentence is refused if and only if that makes more than 40, or more than 8,000 characters joined |
| SentenceReader.ReadLines | party-cf/src/parlume-aura.ts:115-122 | The inner loop takes the complete lines one by one and leaves the unfinished one |
| SentenceReader.ParseLine | party-cf/src/parlume-aura.ts:85-106 | One line: blank, a sentence within the limits, or the failure that ends the reading, with the running count and characters |
| SentenceReader.ReadSentenceLines | party-cf/src/parlume-aura.ts:77-140 | The reader's two loops compute the specified reading; with short lines that is the reading of the whole text |
| Lines.Cut | party-cf/src/parlume-aura.ts:116-122 | Cutting a text anywhere, only the unfinished line carries over |
| Lines.LinesMeaning | party-cf/src/parlume-aura.ts:115-122 | The lines are free of newlines and, each ended by one, make up the text ended by one |
| Lines.TrimMeaning | party-cf/src/parlume-aura.ts:94-96 | Trimming takes off space on both sides, nothing else, and leaves none there |
| SentenceFeedTheorems.DrainWith | party-cf/src/parlume-aura.ts:178-199 | A part that was not reached can be added before or after the earlier ones are drained: the result is the same |
| SentenceFeedTheorems.InOrderMeaning | party-cf/src/parlume-aura.ts:179-199 | Draining stops at the first gap, the part marked last or the overflow, and has released the sentences of the parts before it, never more than a reply can hold |
| SentenceFeedTheorems.OverflowsExactly | party-cf/src/parlume-aura.ts:186-197 | The feed fails if and only if the parts it took hold more than 40 sentences or 8,000 characters, and has then released as many as a reply can hold |
| SentenceFeedTheorems.Confluence | party-cf/src/parlume-aura.ts:174-202 | Parts with distinct numbers, in any order and interleaved with the consumer in any way, release, advance, end and fail as the same parts processed in the order 0, 1, 2, ... |
| SentenceFeedTheorems.OrderDoesNotMatter | party-cf/src/parlume-aura.ts:142-149 | Two runs that were offered the same parts release the same sentences and end or fail alike |
| SentenceFeedTheorems.StepSound | party-cf/src/parlume-aura.ts:174-244 | Every add, close, failure, timer expiry and step of the consumer keeps the invariant of `NoLostWakeUp` |
| SentenceFeedTheorems.NoLostWakeUp | party-cf/src/parlume-aura.ts:204-244 | Over every interleaving: a suspended consumer has been given everything released and the feed is open; what it was given is always the start of what was released; a normal return has given all of it |
| SentenceFeedTheorems.ClosedForGood | party-cf/src/parlume-aura.ts:168-177 | A closed feed stays closed and releases nothing more; a consumer that returned or threw is done |
| SentenceFeedTheorems.RepeatedPartChangesNothing | party-cf/src/parlume-aura.ts:175-177 | In every run a part whose number was offered before is turned away and changes nothing |
| SentenceFeedTheorems.FailureReachesTheConsumer | party-cf/src/parlume-aura.ts:209-218 | In every run, when an open feed fails, the consumer's own next step throws that failure and gives nothing, whatever comes in between, other failures and a close included |
| SentenceFeedTheorems.CloseReachesTheConsumer | party-cf/src/parlume-aura.ts:204-226 | In every run, when an open feed is closed, the consumer's own steps give all that was released and return |
| SentenceFeedTheorems.IdleTimerEndsTheFeed | party-cf/src/parlume-aura.ts:227-236 | In every run, a consumer whose wait ends by the timer returns with everything given and the feed closed |
| SentenceFeedTheorems.TimerRacesArrival | party-cf/src/parlume-aura.ts:227-236 | A part that arrives between the timer's expiry and the consumer's next step is still given out before the feed returns |
| SentenceFeedTheorems.ClosedFeedFinishes | party-cf/src/parlume-aura.ts:214-238 | From every state a run reaches with the feed closed, the consumer's own steps, one for each sentence left and one more, end in a return with everything given, or the first of them throws the failure |
| SentenceFeed.ParlumeSentenceFeed.Add | party-cf/src/parlume-aura.ts:174-202 | Takes a part exactly when the feed is open and the part is new; the fields then hold what draining all accepted parts in order gives |
| SentenceFeed.ParlumeSentenceFeed.ReleaseParts | party-cf/src/parlume-aura.ts:179-199 | The loop over the parts that are next in order drains them, and sets the end or the failure |
| SentenceFeed.ParlumeSentenceFeed.ReleaseSentences | party-cf/src/parlume-aura.ts:186-197 | Releases a part's sentences up to the first that exceeds the limits, which fails the feed |
| SentenceFeed.ParlumeSentenceFeed.Close | party-cf/src/parlume-aura.ts:204-207 | Ends the feed and wakes the consumer |
| SentenceFeed.ParlumeSentenceFeed.Fail | party-cf/src/parlume-aura.ts:209-212 | The first failure stays; the consumer is woken |
| SentenceFeed.ParlumeSentenceFeed.Wake | party-cf/src/parlume-aura.ts:240-244 | Resolves the consumer's promise once; a wake-up left over from an expired timer does nothing |
| SentenceFeed.ParlumeSentenceFeed.Resume | party-cf/src/parlume-aura.ts:227-237 | Runs on after the promise resolved, closing the feed first when the timer resolved it |
| SentenceFeed.ParlumeSentenceFeed.Pass | party-cf/src/parlume-aura.ts:214-226 | One pass of the generator: throws the failure, gives the next released sentence, returns, or suspends |
| PlaybackTheorems.RunKeepsInvariant | party-cf/src/parlume-aura.ts:299-436 | What every run keeps: one ending, a failure point that fits what was taken, no end of the chain without a sentence left |
| PlaybackTheorems.OnlyCurrentReadsAreHeard | party-cf/src/parlume-aura.ts:333-364 | What is handed over only grows, by whole samples, and only by a read of the clip being played while the reply is current |
| PlaybackTheorems.NothingAfterLoss | party-cf/src/parlume-aura.ts:330-337 | Once currency is lost for good, no run hands one more byte to the outlet |
| PlaybackTheorems.OneEnding | party-cf/src/parlume-aura.ts:423-436 | Every run that is done ended or cleared the outlet exactly once, and cleared it when the sentences failed |
| PlaybackBytes.EndsHow | party-cf/src/parlume-aura.ts:410-436 | A reply whose sentences failed is cleared and throws; one whose synthesis failed, or that is current with every clip played, ends with its queue kept; any other is cleared and is not complete |
| PlaybackBytes.EveryByteIsTheClips | party-cf/src/parlume-aura.ts:338-371 | Over every run what the outlet was given is, byte for byte and in place, the clips that the reads made, each less an odd trailing byte, then the even start of the clip begun |
| PlaybackBytes.EndsExactly | party-cf/src/parlume-aura.ts:360-370 | Each clip takes up its own length less an odd trailing byte |
| PlaybackBytes.ReadFailsExactly | party-cf/src/parlume-aura.ts:338-368 | A read of a current reply fails its clip if and only if it takes it past 6 MiB or ends it without a byte |
| PlaybackBytes.RequestedExactly | party-cf/src/parlume-aura.ts:387-403 | A sentence is requested if and only if the reply is current and no synthesis has failed; else the source is broken off |
| PlaybackBytes.NothingRequestedAfter | party-cf/src/parlume-aura.ts:388-390 | In every run, nothing is requested once currency is lost for good or a synthesis failed |
| PlaybackBytes.SilencedForGood | party-cf/src/parlume-aura.ts:32-39 | In every run, once a reply was silenced for good not one more of its bytes is sent |
| PlaybackTheorems.ChunkingDoesNotMatter | party-cf/src/parlume-aura.ts:343-371 | The chunks of a clip read one after the other leave the same reply and the same outlet as the clip in one piece: its samples, less an odd trailing byte, after what was given before |
| PlaybackCuts.ClipsAreRead | party-cf/src/parlume-aura.ts:332-373 | In every run the clips played, and the one begun, are what the reads taken make when joined |
| PlaybackCuts.CutsDoNotMatter | party-cf/src/parlume-aura.ts:332-373 | Two runs whose reads make the same clips give the same bytes with the same sentence ends, however each clip was cut and whatever came between its chunks |
| PlaybackTheorems.ContributionsAreGiven | party-cf/src/parlume-aura.ts:323-384 | What the sentences put at the outlet, in order, is everything that was given |
| PlaybackTheorems.FailureResumes | party-cf/src/parlume-aura.ts:374-380 | When synthesis failed, in every run, everything given is what the sentences before `failedAt` put there and no sentence from `failedAt` on put a byte there |
| PlaybackTheorems.RunKeepsAccounts | party-cf/src/parlume-aura.ts:32-39 | With currency lost for good and clears only on that loss, every byte given is sent, dropped or waiting, in order, exactly once |
| PlaybackTheorems.HeardNeverExceedsSent | party-cf/src/parlume-aura.ts:437-444 | A silenced or completed run never counts a sentence that was not sent to its end, and counts all that were if and only if the other audio dropped meanwhile does not reach back over the end of one |
| PlaybackHeard.HandedOverCountsTheQueue | party-cf/src/parlume-aura.ts:430-444 | After a failed synthesis the count is the number of leading sentences sent to their end if and only if the reply's bytes still waiting, less the other audio dropped, reach over no sentence's end; for a reply still current, if and only if only samples of the clip that failed wait |
| PlaybackHeard.UnsentSentenceCounts | party-cf/src/parlume-aura.ts:430-444 | For every first clip, a run handed over with `heard` 1 and not a byte of the sentence sent |
| PlaybackHeard.HeardIsExact | party-cf/src/parlume-aura.ts:64-69 | When other audio is played only before the reply's first byte, whatever the outlet held at the start, `heard` is the number of leading sentences sent to their end if and only if no other audio was dropped, or there is no clip, or the first clip makes a sample |
| PlaybackHeard.HeardIsExactAlone | party-cf/src/parlume-aura.ts:437-444 | On an outlet that was empty and plays nothing else, `heard` is exact for every clip |
| PlaybackTheorems.CompleteMeans | party-cf/src/parlume-aura.ts:445-446 | A run is complete if and only if the source was exhausted, something was said, every clip was played to its end and the reply is still current; then `heard` is the number of sentences |
| PlaybackHeard.CompleteIsAllExactly | party-cf/src/parlume-aura.ts:387-390 | In every run, currency coming back included, a complete run exhausted its source if and only if no sentence arrived while the reply was not current |
| PlaybackHeard.RegainedCurrencyHidesARest | party-cf/src/parlume-aura.ts:387-390 | Were currency to come back, a run that broke off the source would report itself complete |
| PlaybackHeard.OpeningSilenceHidesASentence | party-cf/src/parlume-aura.ts:437-444 | For all clips, whatever the outlet held and however much silence it opens with again: a run in which a sentence was sent to its end and `heard` is 0 |
| Playback.Player.SentenceArrives | party-cf/src/parlume-aura.ts:387-404 | Breaks off when the reply is not current or synthesis failed; otherwise requests the sentence's clip |
| Playback.Player.ClipRead | party-cf/src/parlume-aura.ts:333-372 | One read: silenced, over the limit, a chunk, the end, or chunk and end; the outlet and the sentence ends follow the specification |
| Playback.Player.Take | party-cf/src/parlume-aura.ts:338-364 | A chunk adds to the outlet exactly the samples it completes, with the odd byte carried over |
| Playback.Player.Complete | party-cf/src/parlume-aura.ts:339-354 | The chunk to hand over is exactly the samples that the new bytes complete |
| Playback.Player.Align | party-cf/src/parlume-aura.ts:343-354 | Joins the byte held back before a chunk and holds back one that is half a sample |
| Playback.Player.EndClip | party-cf/src/parlume-aura.ts:365-372 | An empty clip fails; otherwise the sentence's end is where the given bytes are |
| Playback.Player.ClipFails | party-cf/src/parlume-aura.ts:374-380 | Resumes at the next sentence when this one reached the outlet, else at this one |
| Playback.Player.Finish | party-cf/src/parlume-aura.ts:409-436 | Throws and clears, ends and drains, ends for the caller's audio, or clears, as the run's state says |
| Playback.Player.Drained | party-cf/src/parlume-aura.ts:428-453 | The result once the outlet drained |
| Playback.Player.CountSentences | party-cf/src/parlume-aura.ts:437-444 | Counts the leading sentences whose ends lie within the bytes not dropped |
| Playback.OutletByteForByte | party-cf/src/parlume-aura.ts:351-363 | What the outlet holds of a valid player is, byte for byte, the clips played and the even start of the one begun |
| PlaybackTheorems.CountHeardMeaning | party-cf/src/parlume-aura.ts:438-444 | The count is the largest number of leading sentences that fit |
| BargeIn.LongestMatch | party-cf/src/parlume-barge-in.ts:103-118 | The length of the longest phrase that matches at an index, 0 when none does |
| BargeIn.ConsistsOf | party-cf/src/parlume-barge-in.ts:124-141 | The greedy answer implies a split into phrases with a core phrase among them, and for unambiguous tables is true exactly when there is one |
| BargeInTheorems.OnePhraseFits | party-cf/src/parlume-barge-in.ts:131-139 | For unambiguous tables, every split of the tokens that starts with the phrases taken so far goes on with the longest match |
| BargeInTheorems.AllTaken | party-cf/src/parlume-barge-in.ts:140 | At the end of the tokens the greedy split is the only one, so they are composed exactly when it has a core phrase |
| BargeInTheorems.ComposedExactly | party-cf/src/parlume-barge-in.ts:120-123 | For tables without empty phrases, words are in their language if and only if taking phrases off the front can use them up, a core phrase among those taken |
| BargeInTables.PromisedPhrases | party-cf/src/parlume-barge-in.ts:5-10 | The phrases named as examples are in the languages of their tables |
| BargeInTables.CancelIsPrefixFree | party-cf/src/parlume-barge-in.ts:16-47 | No cancel or filler phrase is the start of another |
| BargeInTables.CancelIsUnambiguous | party-cf/src/parlume-barge-in.ts:16-47 | The cancel tables are unambiguous |
| BargeInTables.BackchannelIsUnambiguous | party-cf/src/parlume-barge-in.ts:49-92 | Acknowledgements with the names heard in any tokens are unambiguous: they overlap only at "uh" and "uh huh", and "huh" starts nothing |
| BargeInTables.NotNames | party-cf/src/parlume-wake.ts:97-121 | "huh" and the first words of two-word acknowledgements are not heard as Parlume's name |
| BargeInTables.NameNeeds | party-cf/src/parlume-wake.ts:97-121 | A word heard as a name has at least four letters, one of them f or p |
| BargeInNames.NameExactly | party-cf/src/parlume-wake.ts:97-121 | A word is heard as a name if and only if its consonants are f, b, r, k or p, r, l, m, perhaps n, in that order with repeats |
| BargeInNames.ConsonantExactly | party-cf/src/parlume-wake.ts:97-104 | What each character adds to the consonants of a word |
| BargeIn.TakeOffNames | party-cf/src/parlume-barge-in.ts:144-155 | The two loops take off the names around the words |
| BargeInNames.UnaddressedMeaning | party-cf/src/parlume-barge-in.ts:144-155 | What is left has only names before and after it, and neither starts nor ends with one |
| BargeIn.ClassifyBargeIn | party-cf/src/parlume-barge-in.ts:157-169 | Cancel exactly for compositions of cancel phrases and filler around the name; otherwise ignored exactly for one word or for compositions of acknowledgements and names |
| RepairScan.Scan | scripts/repair-document-quote-artifacts.ts:139-177 | For every table and page size, the first `limit` affected documents in id order, or all; rows are read in order, each at most once, and reading stops early only with the limit reached |
| RepairScan.CollectPage | scripts/repair-document-quote-artifacts.ts:161-168 | Adds a page's affected rows up to the limit |
| RepairScan.NextPage | scripts/repair-document-quote-artifacts.ts:144-159 | A query with the last id as cursor gives the rows that follow, and a short page is the last |
| RepairScan.AffectedExactly | scripts/repair-document-quote-artifacts.ts:161-163 | A row is affected if and only if normalising its content changes it |
| RepairScan.FirstExactly | scripts/repair-document-quote-artifacts.ts:164-168 | The first `limit` rows: a start of them, as many as there are but no more |
| RepairTransaction.NoLostUpdate | scripts/repair-document-quote-artifacts.ts:212-323 | Over every interleaving with other writers, a repair that commits turns exactly the content present just before it into its normalised form, one version on, and its new snapshot holds what was overwritten |
| RepairTransaction.OnlyCommitsWrite | scripts/repair-document-quote-artifacts.ts:312-316 | A transaction that loses its compare-and-set, has nothing to do or fails leaves documents and snapshots as they were |
| RepairTransaction.OverwrittenIsKept | scripts/repair-document-quote-artifacts.ts:262-285 | Over every run, after a repair commits some snapshot is of that document and the version it overwrote |
| RepairTransaction.AddsExactly | scripts/repair-document-quote-artifacts.ts:264-285 | Over every run a committed repair adds no snapshot when one of the document and version was there as it looked, and else exactly one, holding the overwritten content |
| RepairTransaction.LocksEnd | scripts/repair-document-quote-artifacts.ts:288-316 | Over every run, a locked row is one whose repair is still under way |
| RepairTransaction.RowSinceRead | scripts/repair-document-quote-artifacts.ts:212-316 | Over every run, the row is what the last action since the transaction's read left of it, or what was read when none touched it |
| RepairTransaction.ConflictMeansChanged | scripts/repair-document-quote-artifacts.ts:288-316 | Over every run, a repair that reaches its compare-and-set ends in conflict if and only if the last action to touch the row since its read deleted it or left another version or other content |
| RepairTransaction.RunKeepsInvariant | scripts/repair-document-quote-artifacts.ts:212-323 | A transaction past its compare-and-set holds its row's lock and the row is as it was read |
| RepairTransaction.SnapshotNamesItsEditor | scripts/repair-document-quote-artifacts.ts:260-299 | Over every run, the snapshot that a committed repair adds names the editor of the content it holds if and only if the last action to touch the row since the read, if any, left the editor that was read |
| RepairTransaction.DisciplinedWritersKeepTheEditor | scripts/repair-document-quote-artifacts.ts:260-285 | So it does when versions never fall, a writer who changes the editor raises the version, and no document is written again after it was deleted while a repair of it runs |
| RepairTransaction.SnapshotMayNameAnEarlierEditor | scripts/repair-document-quote-artifacts.ts:288-299 | Without that, for every document to repair, a run whose snapshot names the editor before |
| RepairDocument.Repair.ReadDocument | scripts/repair-document-quote-artifacts.ts:214-232 | Reads the row inside the transaction, or fails when it is gone |
| RepairDocument.Repair.CheckDocument | scripts/repair-document-quote-artifacts.ts:240-260 | Leaves a document awaiting review, and a clean one, alone |
| RepairDocument.Repair.TakeSnapshot | scripts/repair-document-quote-artifacts.ts:264-285 | Creates a snapshot of what was read exactly when its version has none |
| RepairDocument.Repair.CompareAndSetDocument | scripts/repair-document-quote-artifacts.ts:288-316 | Waits for the row's lock, then goes on exactly when version and content are what was read, else ends in conflict |
| RepairDocument.Repair.CommitRepair | scripts/repair-document-quote-artifacts.ts:300-322 | The repaired row and the snapshot become visible together |
| RepairDocument.AloneExactly | scripts/repair-document-quote-artifacts.ts:226-322 | What one repair comes to and leaves with nothing else running, case by case |
| RepairDocument.Repair.RunAlone | scripts/repair-document-quote-artifacts.ts:212-323 | With nothing else running there is no conflict, and exactly a document that is there, awaits no review and is not clean is repaired, with its content and editor in a snapshot |
| RepairRun.RepairAll | scripts/repair-document-quote-artifacts.ts:210-325 | One transaction after the other, with nothing else writing: each document ends as it would alone, and the outcomes are reported in order |
| RepairRun.Run | scripts/repair-document-quote-artifacts.ts:139-325 | Scan and repair together: a dry run changes nothing; otherwise every document found ends repaired or awaits review, and no other changes |
| RepairRun.SecondScan | scripts/repair-document-quote-artifacts.ts:139-177 | After a run without a limit, for an idempotent normal form (packages/utils/lib/quote-artifacts.ts says it is), a second scan finds exactly the documents found before that await review |
| InstallScript.Shell.AcquireLock | aspire/Fabric.AppHost/Program.cs:707 | `mkdir` wins exactly when the directory is not there; a loser polls |
| InstallScript.Shell.Attempt | aspire/Fabric.AppHost/Program.cs:710-716 | One attempt: success goes on to the marker, the third failure gives the lock up, any other tries again |
| InstallScript.Shell.RemoveLockDirectory | aspire/Fabric.AppHost/Program.cs:714-721 | The lock is gone after the marker or after the last attempt |
| InstallScript.Shell.UntilInstalled | aspire/Fabric.AppHost/Program.cs:710-719 | The loop ends installed if and only if one of the first three attempts succeeds |
| InstallScript.Shell.RunAlone | aspire/Fabric.AppHost/Program.cs:694-732 | A container alone on an unlocked volume gets through if and only if the marker is there or one of three attempts succeeds; the lock is gone and the marker there exactly then |
| InstallLock.MutualExclusion | aspire/Fabric.AppHost/Program.cs:707-722 | From any unlocked volume, whatever is installed on it, any number of containers, any interleaving: at most one is between winning `mkdir` and its `rmdir`, and the lock directory exists exactly while one is |
| InstallLock.NobodyPastBeforeAnInstall | aspire/Fabric.AppHost/Program.cs:700-732 | No container gets past the script before some install has succeeded |
| InstallLock.LateInstallsAreBounded | aspire/Fabric.AppHost/Program.cs:700-721 | Once the marker exists, further installs are at most as many as the containers that looked for it before |
| InstallLock.AnotherInstallExactly | aspire/Fabric.AppHost/Program.cs:700-721 | Another install is possible if and only if there is no marker yet or some container is between its look for the marker and its install |
| InstallLock.InstallCanRunTwice | aspire/Fabric.AppHost/Program.cs:700-708 | A run in which two installs succeed |
| InstallLock.WaiterPassesExactly | aspire/Fabric.AppHost/Program.cs:700-730 | From every volume whose lock is kept, some run of the containers there are takes a waiting one past the script if and only if the marker is there or some container has yet to look for it, is between that look and its install, or is about to leave it |
| InstallLock.AWaiterCanStarve | aspire/Fabric.AppHost/Program.cs:707-728 | A run from a new volume that leaves a waiting container which no run of the containers there are takes past |
| InstallLock.WaitersNeedANewContainer | aspire/Fabric.AppHost/Program.cs:712-729 | Once every container waits or exited and there is no marker, no command of any of them changes anything |
| PatternStream.ExecutePatternStream | packages/fabric-ai/client.ts:416-468 | The events are those of the concatenated text alone, whatever the chunks: all newline-terminated lines, then the remainder as JSON only |
| PatternStream.AppendLines | packages/fabric-ai/client.ts:431-457 | Each line's event: its JSON, else the JSON after `data:` |
| PatternStreamSpec.EventsExactly | packages/fabric-ai/client.ts:431-468 | The events of a text from its first line on: the line's JSON, else the JSON after `data:`, else none, before those of the rest; a text without a newline as JSON only |
| PatternStreamSpec.FinalNewline | packages/fabric-ai/client.ts:460-468 | Ending the text with a newline adds exactly the event of a remainder that is a `data:` line |
| PersonalDropTheorems.Partition | scripts/drop-personal-context.ts:282-326 | Every user is in exactly one of cleared and refused, and nobody else is in either |
| PersonalDropTheorems.RefusedExactly | scripts/drop-personal-context.ts:292-323 | A listed user is refused if and only if one of the three steps threw or refused with a reason, and is cleared otherwise |
| PersonalDropTheorems.ReasonExactly | scripts/drop-personal-context.ts:292-323 | The reason is that of the first step that stopped |
| PersonalDropTheorems.SweptExactly | scripts/drop-personal-context.ts:374-396 | A row is selected exactly when its model has an owner column, it is personal and has an owner who is cleared, or not refused |
| PersonalDropTheorems.ScopesAgreeExactly | scripts/drop-personal-context.ts:547-550 | The sweep for all users and the sweep for the cleared ones select the same rows if and only if no personal row's owner is an unlisted user |
| PersonalDropTheorems.GuardIsKept | scripts/drop-personal-context.ts:381-396 | Where a model allows rows without an owner, every scope keeps the guard against them, whatever owner condition is added |
| PersonalDropTheorems.NeverTheRefused | scripts/drop-personal-context.ts:366-373 | Neither form takes a refused user's row, an ownerless row, an organization's row or a row of a model without an owner column |
| PersonalDrop.RunPhaseA | scripts/drop-personal-context.ts:282-326 | Users in order, each cleared when all three steps pass, else refused for the first that did not |
| PersonalDrop.Database.DeleteInBatches | scripts/drop-personal-context.ts:337-359 | For every table and positive batch it ends, with every matching row gone, no other touched, and the number there were as its result |
| PersonalDrop.Database.RunPhaseB | scripts/drop-personal-context.ts:361-428 | With a positive batch every swept model loses exactly the rows in its scope and no other table changes; a dry run, or a batch of zero, changes nothing, and the counts are the same |
| PersonalDrop.AfterSweepExactly | scripts/drop-personal-context.ts:366-428 | Of a model other than the audit log with an owner column exactly the personal rows of allowed owners go, as many as were counted; all others stay as they are |
| PersonalDrop.Database.Run | scripts/drop-personal-context.ts:514-550 | The whole run: nothing on a dry run, with a batch of zero or when all were refused; otherwise every swept model as phase B says, and only personal rows of owners not refused are gone, all three of whose steps passed when they are listed |
| TenantPaths.OwnedByFirstSegment | packages/storage/tenant-paths.ts:102-122 | For owner ids without a slash, a key is owned by exactly the organization, or without one the user, that its first segment names |
| TenantPaths.PrefixesAreDisjoint | packages/storage/tenant-paths.ts:74-100 | For ids without a slash, a page's prefix starts a file's key if and only if owner and page are the same |
| TenantPaths.PagesMeetExactly | packages/storage/tenant-paths.ts:74-100 | For any ids, exactly which two pages of one owner can share a key |
| TenantPaths.SlashesCollide | packages/storage/tenant-paths.ts:74-78 | Of one owner, a page's prefix starts that of every page whose id continues its own through its directory of files |
| PageFiles.StillListed | packages/storage/page-files.ts:41-55 | After some keys were tried, deleted or not, the store lists from the token on exactly the keys not tried |
| PageFiles.DeleteFramePageFiles | packages/storage/page-files.ts:34-58 | Every key under the page's prefix is tried exactly once, in key order; every other key stays; a normal return leaves none and a failure counts exactly those left |
| PageFiles.OtherPagesAreKept | packages/storage/page-files.ts:34-58 | For ids without a slash, a file of any other page or owner is there after exactly when it was before |
| ProviderCache.DatabricksProviders.Get | packages/ai/model-factory.ts:668-701 | The cache never exceeds 256 entries and holds the most recently created keys in creation order; the provider is built from the caller's own key, URL and flag when its API key is separable from those used before |
| ProviderCache.DatabricksProviders.Evict | packages/ai/model-factory.ts:677-686 | Drops the oldest entries until there is room |
| ProviderCache.CacheAfter | packages/ai/model-factory.ts:556-560 | After any calls the cached keys are distinct, at most 256, and include the last call's |
| ProviderCache.RecentExactly | packages/ai/model-factory.ts:556-560 | The cached keys are the last 256 created, or all of them |
| ProviderCache.CacheKeyIsInjective | packages/ai/model-factory.ts:675 | For separable API keys the joined key tells key, URL and flag apart |
| ProviderCache.CollisionsExactly | packages/ai/model-factory.ts:675 | Two different API keys can be joined into one cache key if and only if one starts the other at `::` |
| ProviderCache.ColonFreeAreSeparable | packages/ai/model-factory.ts:675 | API keys without a colon are separable |
| ReplayBuffer.Orchestrator.HandlePublish | party-cf/src/orchestrator.ts:105-154 | Accepts exactly authorized, well-formed messages of this room, with a timestamp; the buffer is the last 100 accepted since the last cleanup; a refusal changes nothing |
| ReplayBuffer.Orchestrator.OnConnect | party-cf/src/orchestrator.ts:33-52 | A joiner is replayed exactly the last 50 of that history, in order |
| ReplayBuffer.Orchestrator.OnDelete | party-cf/src/orchestrator.ts:72-100 | A cleanup that is authorized empties the buffer; any other leaves it |
| ReplayBuffer.LastOfLast | party-cf/src/orchestrator.ts:136-142 | Keeping only the last 100 on the way loses nothing of the last 100 or 50 |
| ReplayBuffer.LastExactly | party-cf/src/orchestrator.ts:49-52 | The end of the history, as long as asked for, or all of it |

## Left out

- HTTP, fetch, WebSockets, Workers AI, JSON parsing and UTF-8 decoding: their results are parameters or events.
- Logging, reports, telemetry and timing figures of a reply (`firstByteMs`, `totalMs`, `startedAtMs`, `firstAudioAt`) and its error text: no property rests on them.
- Cancelling clips that were requested but never played, releasing readers, and a consumer that stops a generator early.
- The outlet's frame clock, framing and WebSocket: the outlet is a first-in-first-out buffer whose `clear` drops what was not sent; its own audio is `ForeignAudio`.
- Cutting text into words and finding a wake phrase (`words`, `parseParlumeWake`): parameters of `ClassifyBargeIn`. Names are recognised among words of ASCII letters and digits, which is what `words` gives.
- RepairScan.Scan: ids are not empty, because the code treats an empty cursor as none; the table does not change during the scan.
- RepairRun.Run: nothing else writes while it runs; the interleavings with other writers are those of `RepairTransaction`. The report and the `--project` filter are not modelled.
- RepairTransaction.OverwrittenIsKept: other writers only add snapshots; one that deletes a snapshot is not modelled.
- RepairTransaction.NoLostUpdate: read committed isolation with row locks is assumed of the database; an existing snapshot's content and the check for a pending proposal across interleavings are not promised, as that check is a plain read.
- Crashes in the middle of the install script: a killed installer leaves the lock behind and waiting containers wait.
- InstallLock: the failure of a command other than the install, `sleep` and `echo`.
- The audit-log branch of the personal-data drop, database errors during phase B (the `uncounted` list), the tallies of cancelled purchases, objects and vectors, and `dropObjects`' claim that all files are gone, as the result of its deletion is not read.
- PersonalDrop.Database.RunPhaseB: a batch size that is not a whole number of rows; other writers do not run meanwhile.
- PageFiles.DeleteFramePageFiles: the store lists in key order, its tokens name the last key listed, which keys cannot be deleted is fixed, and no other writer runs meanwhile.
- ProviderCache: the other providers' caches, which are not bounded, and what `toDatabricksInferenceBaseUrl` computes.
- ReplayBuffer: broadcasting to connections, the GET endpoint, authentication (a parameter), and publishes that interleave at their awaits.
- Model routing, the rest of the Aspire host, the web applications and storage providers: plumbing.
