# Verified models of the companion, the extension and their shared libraries

The repository is a language-learning browser extension with a desktop companion. Most of it is user interface and
plumbing; in between sit some small algorithms and state machines whose correctness is not visible in any one
function. These Dafny modules model those and prove what they are for, over every input, every run and every
interleaving.

| part of the system | modules |
|---|---|
| translating a web page in place and restoring it | `DomPath`, `PageTranslate` |
| the loopback session protocol of the companion | `SessionProtocol` |
| the extension's mailbox for companion messages | `Mailbox` |
| cutting a JSON object out of a script | `JsonScanner` |
| subtitle and lyric files, printer against parser | `Vtt`, `VttRoundTrip`, `VttTexts`, `VttLines`, `Lrc`, `LrcRoundTrip`, `LrcTexts`, `LrcLines` |
| the deck export | `Csv` |
| cue merging, lyric timelines, the karaoke clock, highlights | `CueMerge`, `Timeline`, `Graphemes` |
| audio capture, resampling, the recognition throttle, voice activity | `Ring`, `Resample`, `Capture`, `CaptureRuns`, `Vad` |
| evaluation metrics | `Normalize`, `Utf16`, `EditDistance`, `Chrf` |
| the review scheduler | `Fsrs` |
| shared | `Text` (strings, white space, lines, words), `StableSort`, `Basics` |

Code that changes state is a class or a method with loops, proved against a specification function; the properties of
runs are lemmas about that function. `dafny verify dfyconfig.toml` checks everything.

## Conventions

- A string is a sequence of code points. Only the character score depends on lengths and slices of arbitrary text, and it
  works on the explicit UTF-16 encoding (`Utf16.Encode`). JavaScript numbers and Rust `f32`/`f64` are exact reals or integers; where a
  round-off or a saturating increment is part of the behaviour (`Math.round`, integer division, the 64-bit sequence
  counter, the 32-bit version number) it is written out.
- Regular expressions are written as explicit recognisers.
- Hashes are function parameters that may collide. Random tokens are fresh draws. `exp` and `pow` are parameters of which
  only the facts in `Fsrs.Laws` and `Fsrs.Monotone` are used. Lower-casing is a parameter that commutes with `trim`.
- Clocks are parameters. A run may read any time at any step, including one that has gone back.
- JavaScript's stable array sort is an insertion sort proved sorted, stable and a permutation (`StableSort`).

## What the proofs found

- **Page restore.** Restoring returns every text node to its content at the most recent `translateNow`, even when that
  call failed or its results are wrong. When two nodes get the same 32-bit segment id, the later one takes the table's
  entry; the earlier one is then left untranslated and untouched (`PageTranslate.HeldIff`, `LoserUntouched`,
  `CollisionExample`). Translating again while a translation is shown takes the translations for originals
  (`TranslatedTwiceExample`); every restore of a run gives back the page's own texts if and only if every snapshot of it was
  taken while they were shown (`RestoreHomeIff`).
- **WebVTT.** The round trip of any cues is exact if and only if every cue *ends* before 100 hours and every text is one
  trimmed, non-blank line without tags (`VttTexts.RoundTripIffCarried`). A cue that ends later is dropped
  without a trace, and its neighbours are unharmed. The printer writes a start at 100 hours with three digits too, but the
  parser's pattern is not anchored, and the start is then read from the whole left side of the arrow.
- **LRC.** The round trip is exact, to 10 ms, if and only if every cue *starts* before 100 minutes; later ones are dropped.
  A single cue comes back if and only if, besides, its text is one trimmed, non-blank line without stamps
  (`LrcTexts.CueRoundTripIff`).
- **Mailbox.** "A pending waiter of a type means no queued message of that type" holds exactly for the non-empty types: a
  message whose type is the empty string is never given to a waiter. Two unsettled waits of one type share one entry of
  `pending`, so the timeout of the first removes the second's entry, and a message that then arrives stays queued while the
  second waiter times out (`Mailbox.OverlapStarves`). A type is safe from this through a run if and only if no wait of it is
  issued, for want of a queued message, while another is unsettled (`Mailbox.SafeIffSequential`).
- **Capture.** A chunk is counted exactly when its job is neither paused nor cancelled and the chunk is at 16 kHz, or holds
  at least two bytes at some other positive rate. At rate zero such a chunk asks for room for as many samples as a machine
  number can count; the handler panics while it holds the lock around the queue, and every later use of the queue panics
  too (`CaptureRuns.PoisonedIff`). Recognition runs at most 30 times per start of a job because the ring holds 30 seconds.
- **Character score.** Its unit is the UTF-16 code unit. The score is zero exactly when no two characters of the two texts,
  white space apart, share a unit, so two different emoji score 0.25 (`Chrf.TextScoreZeroIff`, `Chrf.DisjointTextsScore`).
- **Scheduler.** The invariants need no assumption that review times ascend, and hold for any weights. Three sign conditions
  on the weights suffice for a success never to lower stability (`Fsrs.Gainful`), and a few more for the order of the
  ratings (`Fsrs.Tame`); the default weights meet all of them.
- **Versions.** The companion's version check takes `+1.0`, as Rust's integer parser accepts a leading plus sign
  (`SessionProtocol.LeadingPlus`).

## Model

| member | source | states |
|---|---|---|
| DomPath.BuildNodePathInjective | packages/page-translate/src/segmenter.ts:35-41 | Two non-empty lists of (tag, index) parts whose tags hold no slash have the same joined path string only if they are the same list. |
| DomPath.PathInjective | packages/page-translate/src/segmenter.ts:35-64 | Distinct nodes of one document have distinct absolute path strings, whatever the tree looks like. |
| DomPath.CollectedIsWalked | packages/page-translate/src/segmenter.ts:66-167 | Every text node collected for translation, outside skipped elements, is one that the restoring tree walker visits. |
| DomPath.LocsValid | packages/page-translate/src/segmenter.ts:118-167 | The walk yields text nodes that exist in the tree. |
| DomPath.LocsDistinct | packages/page-translate/src/segmenter.ts:118-167 | The walk yields no text node twice. |
| DomPath.LocsIff | packages/page-translate/src/segmenter.ts:66-167 | A node is collected if and only if it is a text node and no element on the way down to it has one of the twelve tags, in any letter case, or is editable; the tree walker visits all text nodes. |
| PageTranslate.CollectTextSegments | packages/page-translate/src/segmenter.ts:118-167 | The restore entries are those of the non-blank text nodes outside skipped elements, in document order; each segment has the id and path of its entry, and its text with the white space normalized. |
| PageTranslate.RestoreTable.constructor | packages/page-translate/src/segmenter.ts:169-174 | The table holds, per id, the last entry with that id, and its ids in the order of their first entries. |
| PageTranslate.RestoreTable.OriginalsByPath | packages/page-translate/src/segmenter.ts:191-195 | The result has exactly the paths of the table's entries, each with the original of the last id on it, in iteration order; with unique paths that is the path's only entry. |
| PageTranslate.BuildAppliedMap | packages/page-translate/src/apply.ts:31-49 | One applied segment for each id of the table, in its order, showing the last result with that id under the mode, or its original where no result has it. |
| PageTranslate.Page.Overwrite | apps/extension/features/page-translate/controller.ts:94-110 | Exactly the text nodes whose path has a text get it; every other node keeps its content; no node appears or vanishes. |
| PageTranslate.Controller.constructor | apps/extension/features/page-translate/controller.ts:60-82 | The controller begins in mode original with an empty table and no results. |
| PageTranslate.Controller.ApplyToDom | apps/extension/features/page-translate/controller.ts:83-114 | Outside mode original the page becomes the rewriting of its contents by table, mode and results; in mode original nothing changes. |
| PageTranslate.Controller.DisplayByPath | apps/extension/features/page-translate/controller.ts:86-93 | The display texts, by path: one for each path in the table, that of its own entry. |
| PageTranslate.Controller.BeginTranslation | apps/extension/features/page-translate/controller.ts:143-149 | The table is replaced by a snapshot of the present contents and the page is not touched. |
| PageTranslate.Controller.CompleteTranslation | apps/extension/features/page-translate/controller.ts:150-153 | Any batch of results, right or wrong, becomes the results, the mode becomes translated, and the page is rewritten. |
| PageTranslate.Controller.FailTranslation | apps/extension/features/page-translate/controller.ts:154-158 | A failure drops the results and keeps table, mode and page. |
| PageTranslate.Controller.RestoreOriginal | apps/extension/features/page-translate/controller.ts:161-181 | Every node in the table gets its original, the mode becomes original, the table is kept. |
| PageTranslate.Controller.ChangeMode | apps/extension/features/page-translate/controller.ts:242-246 | Mode original restores; the others rewrite the page in the new mode. |
| PageTranslate.SnapshotTable | packages/page-translate/src/segmenter.ts:118-211 | A table built from a snapshot is keyed by its own ids and has unique paths, even when ids collide. |
| PageTranslate.BeginTracks | apps/extension/features/page-translate/controller.ts:143-149 | Right after a snapshot, each node either is in the table with its present text as the original or is outside the table. |
| PageTranslate.StepTracks | apps/extension/features/page-translate/controller.ts:83-181 | Every step other than a new snapshot keeps that relation between page, table and the snapshot's texts. |
| PageTranslate.RestoreUndoesRun | apps/extension/features/page-translate/controller.ts:143-181 | After any run, a restore gives every text node its content at the most recent translateNow, for any results and any hash function. |
| PageTranslate.RestoreBeforeTranslation | apps/extension/features/page-translate/controller.ts:161-181 | A run of mode changes, restores, failures and completions without a snapshot changes no text. |
| PageTranslate.TranslationShown | apps/extension/features/page-translate/controller.ts:143-153 | When a translation completes, each node held by the snapshot's table shows the last result for its id, or its snapshot text where there is none, and all others show their snapshot text, whatever happened between the snapshot and the answer. |
| PageTranslate.HeldIff | packages/page-translate/src/segmenter.ts:83-211 | A collected node has its own entry in the table if and only if no later collected node has its id; otherwise the table has no entry for its path at all. |
| PageTranslate.AllHeldIff | packages/page-translate/src/segmenter.ts:83-211 | Every collected node is in the table if and only if no two have the same id. |
| PageTranslate.LoserUntouched | apps/extension/features/page-translate/controller.ts:143-153 | A node whose id a later node has taken shows its snapshot text after the translation, whatever the results. |
| PageTranslate.SameIdIsCollision | packages/page-translate/src/segmenter.ts:83-96 | For any hash without colons, two collected nodes with the same id exhibit two different strings with one hash. |
| PageTranslate.AllHeldWithoutCollisions | packages/page-translate/src/segmenter.ts:83-211 | So under a hash without collisions the table holds every collected node that is not blank, with its own path and text. |
| PageTranslate.EveryTextTranslated | apps/extension/features/page-translate/controller.ts:143-153 | Under such a hash a completed translation shows every text outside left-out elements, unless blank, as the last result for the segment collected at its path, which has the text's words; without a result it is unchanged. |
| PageTranslate.ModeShown | apps/extension/features/page-translate/controller.ts:242-246 | In any state of a run, either translated mode shows the latest results in every node the table holds, and mode original shows the snapshot. |
| PageTranslate.FailForgets | apps/extension/features/page-translate/controller.ts:154-158 | After a failed translation every mode shows the snapshot's texts. |
| PageTranslate.CollisionExample | packages/page-translate/src/segmenter.ts:169-174 | On a page of two text nodes and with a colliding hash, the first is not in the table and the second is. |
| PageTranslate.RestoreHomeIff | apps/extension/features/page-translate/controller.ts:143-181 | Every restore in a run from a fresh controller gives back the first content if and only if every snapshot of the run was taken while that content was shown. |
| PageTranslate.RestoreReturnsHome | apps/extension/features/page-translate/controller.ts:143-181 | In particular so when every snapshot is taken in mode original. |
| PageTranslate.SecondTranslationKeepsFirst | apps/extension/features/page-translate/controller.ts:143-181 | Translating twice and restoring gives every node that the first table held its first translation, not its own text. |
| PageTranslate.TranslatedTwiceExample | apps/extension/features/page-translate/controller.ts:143-181 | A page and a batch on which the original text is lost that way. |
| SessionProtocol.CompanionState.constructor | apps/desktop/src-tauri/src/lib.rs:107-136 | The companion starts without sessions, with its bootstrap token and its pinned extension. |
| SessionProtocol.CompanionState.PurgeExpiredSessions | apps/desktop/src-tauri/src/lib.rs:217-222 | The sessions kept are those that expire after now, in order. |
| SessionProtocol.CompanionState.IssueSession | apps/desktop/src-tauri/src/lib.rs:241-250 | After a purge, one session is added with the drawn token, 30 minutes of life and the extension's id, and it is the result. |
| SessionProtocol.CompanionState.SessionValid | apps/desktop/src-tauri/src/lib.rs:252-259 | True exactly when a session with that token that expires after now was recorded; the expired ones are dropped. |
| SessionProtocol.CompanionState.HandleHandshake | apps/desktop/src-tauri/src/ws_server.rs:133-225 | A session token is issued exactly when the version's major number is 1, the nonce has at least 16 bytes, the clocks differ by at most 120000 ms, and the extension id is non-empty and the pinned one, or any in an unpinned debug build; then the bootstrap token rotates; otherwise nothing changes. |
| SessionProtocol.CompanionState.Authed | apps/desktop/src-tauri/src/ws_server.rs:488-497 | True exactly when the message carries the connection's token and that token has an unexpired session. |
| SessionProtocol.ConnHistory | apps/desktop/src-tauri/src/ws_server.rs:59-225 | In every trace, an open connection has an upgrade with the then current bootstrap token behind it, and its token has an accepted handshake and its issue behind it with no issue since. |
| SessionProtocol.HandledOnlyWhenAuthorized | apps/desktop/src-tauri/src/ws_server.rs:488-497 | In every interleaving and for any clock readings, a privileged message is handled only after an upgrade with the current bootstrap token, an accepted handshake and the issue of the last token of that connection, in that order; the message carries that token, unexpired at its clock reading. |
| SessionProtocol.HandledIsTrusted | apps/desktop/src-tauri/src/ws_server.rs:59-225 | In every interleaving a handled message has behind it an upgrade from a known origin with the bootstrap token of that moment, and a handshake that met those conditions under the pin of its moment and whose clock reading is less than 30 minutes before the message's. |
| SessionProtocol.SessionIsTrusted | apps/desktop/src-tauri/src/lib.rs:241-250 | Every recorded session comes from an earlier handshake that met those conditions, carries its extension id and ends 30 minutes after its clock reading. |
| SessionProtocol.KeptIffTrustworthy | apps/desktop/src-tauri/src/ws_server.rs:133-225 | A handshake request on an idle connection keeps it open if and only if it meets those conditions. |
| SessionProtocol.VersionIff | packages/protocol/rust/src/lib.rs:342-356 | A version passes if and only if it reads as an optional plus sign, zeros, a one, and then nothing or a dot. |
| SessionProtocol.AcceptsIff | apps/desktop/src-tauri/src/lib.rs:195-215 | The four checks of a handshake together are those conditions. |
| SessionProtocol.OriginIff | apps/desktop/src-tauri/src/lib.rs:180-193 | An origin passes exactly when it is absent, one of the two loopback addresses, or that of the pinned extension, or of any extension in an unpinned debug build. |
| SessionProtocol.InvalidForever | apps/desktop/src-tauri/src/lib.rs:217-259 | Once the check has answered false for a token it never answers true for it, on any connection and even if the clock goes back. |
| SessionProtocol.CheckSeesNoExpired | apps/desktop/src-tauri/src/lib.rs:252-259 | Between the purge and the lookup of one check, other connections bring in no session of that token that is expired at the check's reading. |
| SessionProtocol.SessionHistory | apps/desktop/src-tauri/src/lib.rs:241-250 | Every recorded session, in every trace, was issued by some earlier step with that token and expiry. |
| SessionProtocol.IssueUnique | apps/desktop/src-tauri/src/lib.rs:241-250 | No two steps of a trace issue the same token. |
| SessionProtocol.StaleBootstrap | apps/desktop/src-tauri/src/lib.rs:172-178 | A bootstrap token that has been rotated out is never current again. |
| SessionProtocol.HandshakeUninterrupted | apps/desktop/src-tauri/src/ws_server.rs:133-225 | The fine-grained handshake steps, when nothing interrupts them, have the effect that the handshake method has: all of it, or closing the connection. |
| SessionProtocol.AuthUninterrupted | apps/desktop/src-tauri/src/ws_server.rs:488-497 | The fine-grained steps of one check, when nothing interrupts them, answer and purge as the method does: at once for another token, else by the recorded sessions. |
| SessionProtocol.LeadingPlus | packages/protocol/rust/src/lib.rs:342-356 | One plus sign in front of a version never changes the answer of the version check. |
| SessionProtocol.PlusOneAccepted | packages/protocol/rust/src/lib.rs:342-356 | The version `+1.0` passes the check. |
| Mailbox.Client.OnMessage | apps/extension/features/companion/client.ts:157-180 | An arriving message resolves the pending waiter of its type and disarms its timer; with no such waiter it is offered to the fan-in and queued. |
| Mailbox.Client.DispatchFanIn | apps/extension/features/companion/client.ts:80-85 | Exactly the messages of the fan-in types reach the handlers. |
| Mailbox.Client.FindIndex | apps/extension/features/companion/client.ts:204-209 | The index of the first queued message of the type, or the length where there is none. |
| Mailbox.Client.WaitType | apps/extension/features/companion/client.ts:202-219 | A wait takes the first queued message of its type; with none it arms a timer and becomes the pending waiter of its type, replacing the one before. |
| Mailbox.Client.OnTimeout | apps/extension/features/companion/client.ts:214-217 | A timeout rejects its waiter and deletes the pending entry of its type, whoever's it is. |
| Mailbox.RunInvariant | apps/extension/features/companion/client.ts:147-219 | In every run: waiters are either armed or settled, pending ones are armed for their type, a non-empty type with a pending waiter has no queued message, and each resolved waiter got a message of the type it asked for. |
| Mailbox.DeliveredThenQueuedIsArrived | apps/extension/features/companion/client.ts:147-219 | For each type and every run, what was delivered, followed by what is still queued, is what arrived, in order. |
| Mailbox.FannedIsUnclaimed | apps/extension/features/companion/client.ts:178-179 | In every run the fan-in handlers have seen, in order, exactly the messages of the six types that settled no waiter when they arrived. |
| Mailbox.TakenWasFanned | apps/extension/features/companion/client.ts:80-85 | For each of the six types, what the handlers have seen is what waits later took from the queue followed by what is still queued: each such message was handed over exactly once. |
| Mailbox.SettledOnce | apps/extension/features/companion/client.ts:157-219 | A settled waiter keeps its outcome for the rest of any run; it is settled exactly when its timer is gone. |
| Mailbox.ArrivalReachesOnlyArmed | apps/extension/features/companion/client.ts:157-180 | In every reachable state an arrival settles no waiter, or one unsettled waiter whose timer is armed for that type. |
| Mailbox.NeverMissedIff | apps/extension/features/companion/client.ts:170-171 | "No pending waiter together with a queued message of its type" holds in all runs if and only if the type is not the empty string. |
| Mailbox.ServedIff | apps/extension/features/companion/client.ts:147-219 | From a state where a type is served, a step makes an unsettled waiter unreachable if and only if it is an arrival or a timeout that settles one of two unsettled waiters of that type. |
| Mailbox.SafeIffSequential | apps/extension/features/companion/client.ts:147-219 | Through every run a type stays served, also whichever of its timers goes off next, if and only if no wait of it is issued, for want of a queued message, while another one is unsettled. |
| Mailbox.SequentialWaiterReached | apps/extension/features/companion/client.ts:157-219 | In such a run every arriving message of the type settles the waiter that is unsettled. |
| Mailbox.OverlapStarves | apps/extension/features/companion/client.ts:202-219 | Counterexample run: of two waits of one type the first times out, a message of that type arrives and stays queued, and the second times out too. |
| JsonScanner.ExtractJsonObject | apps/extension/features/captions/player-response.ts:86-114 | The loop returns the balanced, string-aware prefix at the start position, and nothing past the end of the text. |
| JsonScanner.BalancedIsTheGroupPrefix | apps/extension/features/captions/player-response.ts:86-114 | The result is a given text exactly when that text is a prefix that reads as one brace group with strings and escapes; so it is nothing exactly when there is no such prefix. |
| JsonScanner.GroupFound | apps/extension/features/captions/player-response.ts:86-114 | A brace group is found whole, whatever follows it. |
| JsonScanner.GroupsArePrefixFree | apps/extension/features/captions/player-response.ts:86-114 | No brace group is a proper prefix of another, so the prefix found is the only one. |
| JsonScanner.JsonIsItems | apps/extension/features/captions/player-response.ts:86-114 | Every JSON text of the grammar in sections 2 to 7 of RFC 8259 reads as such items, and every object as one group. |
| JsonScanner.JsonObjectExtracted | apps/extension/features/captions/player-response.ts:86-114 | For every JSON object text between any two texts, scanning from its first character returns exactly it. |
| JsonScanner.SkipSpaces | apps/extension/features/captions/player-response.ts:124 | The loop stops at the first character that is not white space, or at the end. |
| JsonScanner.ExtractPlayerResponseFromScript | apps/extension/features/captions/player-response.ts:117-133 | The text handed to the JSON parser is the scan after the first marker, the next equals sign and the white space after it, or there is none. |
| JsonScanner.ScriptYieldsObject | apps/extension/features/captions/player-response.ts:117-133 | A script that assigns a JSON object to the marker yields exactly that object's text, whatever follows. |
| JsonScanner.ScriptGivesGroup | apps/extension/features/captions/player-response.ts:117-133 | Whatever the script, what is handed on is a brace group that stands after the first marker and an equals sign. |
| Vtt.ToVtt | crates/subtitle-core/src/lib.rs:60-71 | The file is the header and, for each cue in order, its timing line, its text and a blank line. |
| Vtt.ParseVttTimedtext | apps/extension/features/captions/parser.ts:97-149 | The cues are those that reading the trimmed file block by block gives; a blank body gives none. |
| Vtt.ReadCue | apps/extension/features/captions/parser.ts:107-146 | One turn of the loop reads one block or skips one line, and always moves on. |
| Vtt.TextLines | apps/extension/features/captions/parser.ts:126-133 | The inner loop takes the trimmed lines up to the first blank one and steps over that. |
| Vtt.ParseTimedtextBody | apps/extension/features/captions/parser.ts:154-191 | Under any hint or none: which bodies reach the WebVTT parser, with what cues, and which go to the json3 and the srv parser instead. |
| Vtt.RoutedByContent | apps/extension/features/captions/parser.ts:154-190 | Without a hint: exactly which texts go to each of the three parsers, by what they begin with and hold. |
| VttRoundTrip.StampRoundTrip | apps/extension/features/captions/parser.ts:231-247 | The parser of timestamps inverts the printer for every millisecond count, beyond 100 hours too. |
| VttRoundTrip.StampLengthOf | apps/extension/features/captions/parser.ts:120-122 | The timestamp pattern takes a printed time whole exactly when it is below 100 hours, and else does not match at it. |
| VttRoundTrip.TimingOfLine | apps/extension/features/captions/parser.ts:120-122 | The timing pattern is found in a printed timing line exactly when the cue ends before 100 hours. |
| VttRoundTrip.ReadableBlock | apps/extension/features/captions/parser.ts:107-146 | A printed block that ends before 100 hours is read whole, with its times and text, up to the next block. |
| VttRoundTrip.UnreadableBlock | apps/extension/features/captions/parser.ts:107-146 | A printed block that ends later contributes nothing and does not disturb the blocks after it, whatever its text looks like. |
| VttRoundTrip.CuesOfLines | apps/extension/features/captions/parser.ts:97-149 | Reading the printed lines of a list of cues gives exactly those that end before 100 hours, in order. |
| VttRoundTrip.PrintThenParse | crates/subtitle-core/src/lib.rs:60-95 | Printing and parsing, through format detection or under any hint but the two srv ones, gives exactly the cues that end before 100 hours, with start, end, text and order; for trimmed, non-blank, single-line, tag-free texts (section 4.1 of W3C WebVTT). |
| VttRoundTrip.RoundTripIff | apps/extension/features/captions/parser.ts:154-191 | For texts that the format carries, the round trip is exact if and only if every cue ends before 100 hours. |
| VttTexts.StripTagFree | apps/extension/features/captions/parser.ts:136 | Removing the tags of any text leaves none: none comes about by joining what was around one. |
| VttTexts.ParsedPrintable | apps/extension/features/captions/parser.ts:97-149 | Every text that the parser gives, for any file, is one trimmed, non-blank line without tags. |
| VttTexts.RoundTripIffCarried | apps/extension/features/captions/parser.ts:97-191 | For any cues whatever, the round trip is exact if and only if every text is one trimmed, non-blank line without tags and every cue ends before 100 hours. |
| VttLines.LinesRoundTrip | crates/subtitle-core/src/lib.rs:60-95 | Printing and parsing cues that end before 100 hours, whose texts are one or more trimmed, non-blank lines that hold no tag side by side, gives each cue's start and end and its lines in order with one space between them. |
| VttLines.TagAcrossLines | apps/extension/features/captions/parser.ts:126-136 | Two lines that hold no tag each can hold one side by side, and then lose it. |
| VttLines.IdentifierIgnored | apps/extension/features/captions/parser.ts:114-119 | A line before a timing line, without arrow or keyword, makes no difference. |
| VttLines.KeywordSkipped | apps/extension/features/captions/parser.ts:108-113 | Blank lines and lines that begin with one of the three keywords are skipped one at a time. |
| VttLines.SettingsIgnored | apps/extension/features/captions/parser.ts:120-129 | What follows the end time on a timing line is ignored, as long as it holds no closing angle bracket. |
| VttLines.ShortTime | apps/extension/features/captions/parser.ts:231-247 | A time without hours is read as minutes and seconds. |
| Lrc.ToLrc | crates/subtitle-core/src/lib.rs:73-83 | The file is one line for each cue, in order: its start in minutes, seconds and hundredths, and its text. |
| Lrc.ParseLrc | packages/lyrics/src/parse.ts:27-42 | The result is the stably sorted entries of all lines, without those that have no text. |
| Lrc.ParseLine | packages/lyrics/src/parse.ts:29-38 | A line gives one entry for each timestamp in it, left to right, with the text outside all of them. |
| LrcRoundTrip.PrintedLine | packages/lyrics/src/parse.ts:5-38 | A printed line is read back as its start, rounded down to 10 ms, and its text, or as nothing when it starts at 100 minutes or later. |
| LrcRoundTrip.PrintThenParse | packages/lyrics/src/parse.ts:27-42 | For cues in any order, printing and parsing gives those that start before 100 minutes, stably sorted, with their texts and starts rounded down to 10 ms. |
| LrcRoundTrip.RoundTripIff | packages/lyrics/src/parse.ts:27-42 | For cues in order of start the round trip is exact, to 10 ms, if and only if every cue starts before 100 minutes. |
| LrcRoundTrip.ReprintIdentical | crates/subtitle-core/src/lib.rs:73-83 | Printing what was parsed gives the identical file. |
| LrcTexts.NotGivenBack | packages/lyrics/src/parse.ts:29-38 | A line whose stamp has three minute digits never gives its own text back, whatever stamps the text holds. |
| LrcTexts.CueRoundTripIff | packages/lyrics/src/parse.ts:27-42 | For any cue, the file of that cue alone is parsed back to it, to 10 ms, if and only if it starts before 100 minutes and its text is one trimmed, non-blank line without stamps. |
| LrcLines.LineOfMarks | packages/lyrics/src/parse.ts:5-38 | A line of any number of stamps, each with one or two minute digits and up to three fraction digits after a dot or colon, and a text gives one entry per stamp, in order, with the text, at minutes, seconds and decimal fraction of a second. |
| StableSort.SortCorrect | packages/protocol/src/cue-math.ts:63 | The sort is sorted, a permutation, and keeps the order of equal keys. |
| StableSort.SortIdentity | packages/protocol/src/cue-math.ts:63 | Sorting a list that is in order leaves it as it is. |
| CueMerge.MergeAdjacentCues | packages/protocol/src/cue-math.ts:58-89 | The loop over the sorted cues computes the merge. |
| CueMerge.MergedByGroups | packages/protocol/src/cue-math.ts:58-89 | The output has one cue for each group of consecutive sorted cues, with the group's earliest start, latest end, its words in order and its first speaker; the groups together are the sorted input. |
| CueMerge.WordsConserved | packages/protocol/src/cue-math.ts:70-82 | The words of the output, in order, are those of the sorted input. |
| Text.WordsOfJoin | packages/protocol/src/cue-math.ts:73-77 | Joining two texts with a space and normalizing the white space keeps the words of both, in order. |
| CueMerge.MergedApartAndNear | packages/protocol/src/cue-math.ts:58-89 | The output is in order with all gaps above the limit, and an instant is within reach of an output cue exactly when it is within reach of an input cue. |
| CueMerge.EveryCueCovered | packages/protocol/src/cue-math.ts:58-89 | Every input cue lies within some output cue. |
| CueMerge.CoverDetermines | packages/protocol/src/cue-math.ts:58-89 | Two lists with all gaps above the limit that reach the same instants have the same intervals. |
| CueMerge.OrderIrrelevant | packages/protocol/src/cue-math.ts:58-89 | The output intervals depend only on the set of input cues, not on their order or repetition. |
| CueMerge.MergeTwice | packages/protocol/src/cue-math.ts:58-89 | Merging the output again changes nothing. |
| CueMerge.OnePerComponent | packages/protocol/src/cue-math.ts:58-89 | Two input cues lie within the same output cue if and only if a chain of input cues, each at most the gap from the next, links them. |
| Ring.RingBuffer.constructor | crates/media-pipeline/src/lib.rs:350-357 | An empty ring whose capacity is at least one. |
| Ring.RingBuffer.PushOne | crates/media-pipeline/src/lib.rs:360-364 | Writing one sample, with wrap-around, leaves the last samples, up to the capacity, of what was held and the new one. |
| Ring.RingBuffer.PushSlice | crates/media-pipeline/src/lib.rs:359-365 | Pushing a slice leaves the last samples, up to the capacity, of what was held followed by the slice. |
| Ring.RingBuffer.LenSamples | crates/media-pipeline/src/lib.rs:367-369 | The number of samples held. |
| Ring.RingBuffer.Snapshot | crates/media-pipeline/src/lib.rs:371-385 | The samples held, oldest first, whatever the write position. |
| Ring.TailOfTail | crates/media-pipeline/src/lib.rs:359-365 | Keeping the tail after each push is keeping the tail of the whole stream. |
| Resample.PcmDecodes | crates/media-pipeline/src/lib.rs:212-217 | Decoding the little-endian two's complement bytes of any 16-bit samples gives each of them over 32768, in order; an odd last byte is dropped. |
| Resample.ResampleLinear | crates/media-pipeline/src/lib.rs:316-338 | The loop computes the resampled signal; an empty input is refused, equal rates copy it, a zero source rate panics, and a zero target rate gives a sample that is not a number. |
| Resample.ReadsInBounds | crates/media-pipeline/src/lib.rs:324-334 | For positive rates, every output position falls inside the input, so both reads are in bounds. |
| Resample.OutputsBetweenInputs | crates/media-pipeline/src/lib.rs:324-334 | Each output lies between the two neighbouring inputs on either side of its position; only at the end are those two the same. |
| Resample.WholePositionCopies | crates/media-pipeline/src/lib.rs:324-334 | An output that falls exactly on an input sample is that sample. |
| Resample.RampStaysRamp | crates/media-pipeline/src/lib.rs:324-334 | On a linear ramp every output whose right neighbour exists is the ramp's value at its position. |
| Resample.LengthNearest | crates/media-pipeline/src/lib.rs:324 | There are as many outputs as the input's duration holds at the target rate, to the nearest, and at least one. |
| Capture.CaptureJob.Obey | crates/media-pipeline/src/lib.rs:119-154 | Cancelling always succeeds; a cancelled job refuses pause and resume, a completed one refuses resume; otherwise only the state changes. |
| CaptureRuns.RefusedIff | crates/media-pipeline/src/lib.rs:119-154 | A command is refused exactly when it asks a cancelled job to pause or resume, or a completed one to resume, and changes nothing but the state. |
| Capture.CaptureJob.Ingest | crates/media-pipeline/src/lib.rs:156-194 | A cancelled job refuses, a paused one answers its counter, a failed or panicking conversion changes nothing; otherwise the ring keeps the tail of what it held and the converted chunk, and the counter goes up by one. |
| Capture.CaptureJob.HandleChunk | apps/desktop/src-tauri/src/ws_server.rs:896-966 | After a successful ingest, recognition runs exactly when more than 16000 samples are held and the whole-second segment number is above the last one, which it becomes. |
| Capture.CaptureJobQueue.StartWithId | crates/media-pipeline/src/lib.rs:108-117 | The id now names a fresh job and every other job is untouched; with the lock poisoned it panics and changes nothing. |
| Capture.CaptureJobQueue.Control | crates/media-pipeline/src/lib.rs:119-154 | A command affects only the job that it names, and an unknown id is an error. |
| Capture.CaptureJobQueue.HandleChunk | apps/desktop/src-tauri/src/ws_server.rs:896-966 | A chunk affects only the job that it names, and an unknown id changes nothing; a panic poisons the lock, and with the lock poisoned every call panics and changes nothing. |
| Capture.CaptureJobQueue.SnapshotPcm | crates/media-pipeline/src/lib.rs:196-209 | The samples held by the job's ring, or an error for an unknown id, an empty ring or a poisoned lock. |
| CaptureRuns.ConversionFails | crates/media-pipeline/src/lib.rs:167-177 | A chunk converts exactly when it is at 16 kHz, or holds at least two bytes at another positive rate; it panics exactly when it holds two bytes at rate zero. |
| CaptureRuns.SnapshotIsTail | crates/media-pipeline/src/lib.rs:108-194 | After any run without a panic, a job's ring holds the last 480000 samples of the chunks that convert, by rate and length, and arrived since its last start while it was neither paused nor cancelled; its counter is their number, and its next sequence number one more than the last one's, saturating at 64 bits. |
| CaptureRuns.CancelledForGood | crates/media-pipeline/src/lib.rs:119-165 | A cancelled job takes in nothing and stays cancelled until it is started anew. |
| CaptureRuns.PoisonedIff | apps/desktop/src-tauri/src/ws_server.rs:896-904 | The lock around the queue is poisoned after exactly those runs in which a chunk at rate zero with a sample in it reached a job that was neither paused nor cancelled. |
| CaptureRuns.ZeroRatePoisons | apps/desktop/src-tauri/src/ws_server.rs:896-904 | A start and a chunk of two bytes at rate zero are such a run. |
| CaptureRuns.RunThrottled | apps/desktop/src-tauri/src/ws_server.rs:896-966 | In every run the segments of a job since its start increase within 1 to 30, and the last one is the number of whole seconds held, or zero up to one second. |
| CaptureRuns.RecognitionBounded | apps/desktop/src-tauri/src/ws_server.rs:920-945 | Recognition runs at most 30 times per start of a job, for strictly increasing segments; after each event at most 16000 samples are held or the last segment equals the whole seconds held. |
| CaptureRuns.StoppedJobsStaySilent | apps/desktop/src-tauri/src/ws_server.rs:896-966 | In every reachable state, a chunk for a paused or cancelled job changes nothing and runs no recognition. |
| Vad.EnergyVadChunks | crates/media-pipeline/src/lib.rs:260-314 | The loop emits the chunks of the spans in order; empty input and a zero rate are refused. |
| Vad.ChunksAreMaximalRuns | crates/media-pipeline/src/lib.rs:274-302 | A range of samples is a chunk if and only if it is a maximal run of consecutive frames that reach the threshold, the short last frame included. |
| Vad.SpansSeparated | crates/media-pipeline/src/lib.rs:274-302 | Chunks are non-empty, in order, and at least one whole silent frame apart. |
| Vad.ChunkSamplesConserved | crates/media-pipeline/src/lib.rs:274-314 | The chunks' samples, put together, are the samples of the loud frames, put together. |
| Vad.StampsOrdered | crates/media-pipeline/src/lib.rs:304-314 | The millisecond stamps of every chunk are in order and within the input, in spite of integer division. |
| Vad.StampsApart | crates/media-pipeline/src/lib.rs:304-314 | A chunk's end stamp is at most the start stamp of every later chunk. |
| Vad.ChunkExact | crates/media-pipeline/src/lib.rs:274-314 | Each chunk holds the samples of a maximal loud run, and its stamps are the last whole milliseconds not after its two ends. |
| Vad.LoudByAmplitude | crates/media-pipeline/src/lib.rs:278-281 | A frame of constant energy is loud exactly when that energy reaches the threshold, whatever the frame's length. |
| Vad.LoudOfTwo | crates/media-pipeline/src/lib.rs:278-281 | A frame of two samples is loud exactly when their mean square reaches the threshold. |
| Vad.FrameLengthBounds | crates/media-pipeline/src/lib.rs:271 | A frame holds the samples of its milliseconds, rounded down, and at least one. |
| Normalize.TokensAreWords | benchmarks/src/metrics.ts:3-11 | The tokens of a text are the maximal runs of non-white-space characters of the lower-cased text, whatever white space stands around and between them. |
| Normalize.SqueezedIsVisible | benchmarks/src/metrics.ts:50-51 | What the character score compares is the lower-cased text without any of its white space. |
| EditDistance.Compute | benchmarks/src/metrics.ts:14-35 | The last cell of the filled table is the cost of some script of insertions, deletions and substitutions that turns the one list into the other, and no such script costs less. |
| EditDistance.LeastCost | benchmarks/src/metrics.ts:14-35 | The recurrence is the least cost over all edit scripts. |
| EditDistance.Optimal | benchmarks/src/metrics.ts:23-33 | A script with exactly that cost, constructed. |
| EditDistance.LowerBound | benchmarks/src/metrics.ts:23-33 | No script costs less than the distance of its two ends. |
| EditDistance.Compose | benchmarks/src/metrics.ts:14-35 | Two scripts, one after the other, fuse into one that costs no more than both. |
| EditDistance.Symmetric | benchmarks/src/metrics.ts:14-35 | The distance is symmetric. |
| EditDistance.Triangle | benchmarks/src/metrics.ts:14-35 | The distance satisfies the triangle inequality. |
| EditDistance.ZeroIffEqual | benchmarks/src/metrics.ts:14-35 | It is zero on equal lists and on no others. |
| EditDistance.Bounds | benchmarks/src/metrics.ts:14-35 | It lies between the difference of the lengths and the longer length. |
| EditDistance.WordErrorRate | benchmarks/src/metrics.ts:41-46 | The rate of the two texts' token lists, with the two cases of an empty reference. |
| EditDistance.RateMeaning | benchmarks/src/metrics.ts:41-46 | The rate is zero exactly on equal token lists, one when just the reference is empty and, for a non-empty reference, at most the longer length over the reference's. |
| EditDistance.RateOfCheapest | benchmarks/src/metrics.ts:41-46 | On a non-empty reference the rate is the cost of a cheapest script over the reference's length. |
| EditDistance.TextRateZeroIff | benchmarks/src/metrics.ts:3-46 | Two texts have rate zero exactly when their lower-cased forms have the same words. |
| Chrf.Ngrams | benchmarks/src/metrics.ts:78-86 | The count map gives each window of n units its multiplicity, of which there are length - n + 1, or none. |
| Chrf.TotalCount | benchmarks/src/metrics.ts:88-92 | The sum of the counts is the number of windows. |
| Chrf.IntersectCount | benchmarks/src/metrics.ts:94-101 | The sum of the smaller counts is the size of the multiset intersection. |
| Chrf.OverlapFacts | benchmarks/src/metrics.ts:94-101 | The overlap is symmetric, at most either total, and with itself the total. |
| Chrf.OrderShares | benchmarks/src/metrics.ts:59-69 | One round gives the overlap over either total, zero for an empty one, and counts unless both sequences are shorter than the order. |
| Chrf.Sums | benchmarks/src/metrics.ts:59-69 | The loop adds up these ratios over the orders 1 to n. |
| Chrf.Compute | benchmarks/src/metrics.ts:49-76 | The score of the UTF-16 code units of the two squeezed texts. |
| Chrf.ScoreRange | benchmarks/src/metrics.ts:49-76 | The score lies in [0, 1] and is symmetric in its two texts. |
| Chrf.ScoreOfEqual | benchmarks/src/metrics.ts:49-76 | For n of at least 1 the score of equal texts is 1. |
| Chrf.HarmonicMean | benchmarks/src/metrics.ts:71-75 | The reciprocal of the score is the mean of the reciprocals of the two averages. |
| Chrf.ScoreZeroIffDisjoint | benchmarks/src/metrics.ts:49-76 | For n of at least 1 the score is zero exactly when the two sequences of units, not both empty, have no unit in common. |
| Utf16.ShareUnitIff | benchmarks/src/metrics.ts:78-86 | Two characters have a UTF-16 code unit in common exactly when they are equal, or both outside the basic plane with the same high or the same low surrogate. |
| Utf16.SurrogatesDecode | benchmarks/src/metrics.ts:78-86 | A character outside the basic plane is read back from its two surrogates. |
| Chrf.TextScoreZeroIff | benchmarks/src/metrics.ts:49-76 | So two texts, not both blank, score zero exactly when no two characters of their lower-cased forms, white space apart, share a code unit. |
| Chrf.SharedCharacterScores | benchmarks/src/metrics.ts:49-76 | A character that is not white space, common to both lower-cased texts, gives a score above zero. |
| Chrf.DisjointTextsScore | benchmarks/src/metrics.ts:49-76 | Two texts without a common character that score 0.25 at the default n. |
| Fsrs.ReviewFsrs | packages/learning/src/fsrs.ts:117-180 | For any weights, fewer than 19 of which are replaced by the default ones, the field-by-field update of the copied record equals the new memory, interval, due time and counters of the five cases. |
| Fsrs.DefaultIsTame | packages/learning/src/fsrs.ts:15-19 | The default weights meet the conditions of the stability and ordering results. |
| Fsrs.ReviewsSound | packages/learning/src/fsrs.ts:117-180 | After any sequence of reviews of a fresh card, at any times and under any weights: difficulty in [1, 10], stability at least 0.1, lapses at most reps, reps the number of reviews, due after the last review. |
| Fsrs.HistoryRecorded | packages/learning/src/fsrs.ts:117-180 | After any reviews of a fresh card the record shows their number, how many failed, the last time and the days since the one before; the card is due ten minutes after a failure and its whole interval after a success. |
| Fsrs.FirstStability | packages/learning/src/fsrs.ts:40-50 | The first stability is the rating's weight, or a tenth of a day. |
| Fsrs.SuccessMultiplies | packages/learning/src/fsrs.ts:65-86 | A success multiplies a stability of at least a tenth of a day by one more than the gain, which is not negative. |
| Fsrs.GainShape | packages/learning/src/fsrs.ts:65-86 | The gain grows, the easier the card, the less stable it was and the more of it was forgotten. |
| Fsrs.FailShape | packages/learning/src/fsrs.ts:87-99 | Stability after a failure is higher, the easier the card, the more stable it was and the more of it was forgotten. |
| Fsrs.RatingFactors | packages/learning/src/fsrs.ts:65-86 | Hard and Easy scale the gain of Good by their weights. |
| Fsrs.InitDifficultyOrdered | packages/learning/src/fsrs.ts:52-54 | A card begins the more difficult, the worse its first rating. |
| Fsrs.GoodReverts | packages/learning/src/fsrs.ts:56-64 | A Good moves difficulty towards that of a first Good and never past it. |
| Fsrs.PublishedBeginning | packages/learning/src/fsrs.ts:15-54 | The first stability and difficulty by the published default weights, in figures. |
| Fsrs.PublishedFormulas | packages/learning/src/fsrs.ts:15-99 | The later difficulty, gain and failure stability by the published default weights, in figures. |
| Fsrs.RecallFalls | packages/learning/src/fsrs.ts:101-105 | Recall is certain right after a review and only falls. |
| Fsrs.IntervalMeetsRetention | packages/learning/src/fsrs.ts:107-111 | The interval is the time after which recall has fallen to the requested retention, rounded to days, and at least one. |
| Fsrs.SuccessKeepsStability | packages/learning/src/fsrs.ts:65-80 | When weights 10, 15 and 16 are not negative, a successful review of a card that is not new never lowers its stability. |
| Fsrs.IntervalsNeverShrink | packages/learning/src/fsrs.ts:104-180 | Under the same conditions, after any history, a success that follows a success never shortens the interval. |
| Fsrs.RatingsOrdered | packages/learning/src/fsrs.ts:40-180 | For tame weights, from any one state, next stability and interval are ordered Hard, Good, Easy. |
| Fsrs.StabilityIsTheNinetyPercentPoint | packages/learning/src/fsrs.ts:95-111 | After as many days as its stability a card is recalled with probability 0.9, and at retention 0.9 the interval is the stability rounded, at least one day. |
| Csv.CardsToCsv | packages/learning/src/fsrs.ts:237-247 | The file is the header and one row for each card, each after a line feed. |
| Csv.FieldRoundTrip | packages/learning/src/fsrs.ts:249-253 | A reader of section 2 of RFC 4180 gets back any escaped string, with quotes, commas and line feeds in it. |
| Csv.ExportRoundTrip | packages/learning/src/fsrs.ts:237-253 | The reader recovers from the exported file the four column names and, per card, source, translation or nothing, tags joined by spaces, and the due number in digits. |
| Csv.ExportInjective | packages/learning/src/fsrs.ts:237-253 | Two decks with the same file have the same number of cards and agree on every exported value. |
| Timeline.LrcAscending | packages/lyrics/src/parse.ts:27-42 | Parsed lyric lines are in order of start, for every file. |
| Timeline.PlainAscending | packages/lyrics/src/parse.ts:74-83 | So are the lines of a plain text. |
| Timeline.TimelineSeamless | packages/lyrics/src/parse.ts:85-112 | A timeline of lines in order, with a default duration of at least 200 ms, has cues that last, starts and ends in order, and no hole. |
| Timeline.TimelineExact | packages/lyrics/src/parse.ts:85-112 | Every line becomes a cue with its start and text; it ends where the next one starts but lasts at least 200 ms, and the last one lasts as long as asked for. |
| Timeline.PlainExact | packages/lyrics/src/parse.ts:74-83 | A plain text becomes trimmed, non-blank lines that together have exactly its words, the i-th starting at i times the duration. |
| Timeline.KaraokeAt | packages/lyrics/src/karaoke.ts:13-48 | The active index is the first cue that covers the time, failing that the last one started, or none, and the three ids are those at and around it. |
| Timeline.ActiveUnique | packages/lyrics/src/karaoke.ts:13-48 | That condition fixes the active index. |
| Timeline.ClockMonotone | packages/lyrics/src/karaoke.ts:13-48 | On a seamless timeline the active index never goes back as time goes on. |
| Timeline.ActiveCueAt | apps/extension/features/captions/parser.ts:258-263 | The first cue that covers the time, or nothing when none does. |
| Timeline.ClockAgreesInside | packages/lyrics/src/karaoke.ts:13-48 | Inside a seamless timeline the karaoke clock names the cue that the caption lookup names. |
| Timeline.LrcClock | packages/lyrics/src/parse.ts:27-112 | From the file on: on the timeline of any LRC file the clock never goes back, and inside the timeline it names the cue that the caption lookup names. |
| Timeline.PlainClock | packages/lyrics/src/parse.ts:74-112 | The same for any plain text. |
| Graphemes.FindGraphemeSpan | packages/language-kits/src/graphemes.ts:62-75 | The leftmost occurrence, or nothing exactly when there is none or the surface is empty. |
| Graphemes.FindAll | packages/language-kits/src/graphemes.ts:81-84 | The leftmost spans of the surfaces that occur, in the order of the surfaces. |
| Graphemes.SplitHighlightSurfaces | packages/language-kits/src/graphemes.ts:77-112 | The slices are those of the pieces between and at the kept spans. |
| Graphemes.SplitTilesText | packages/language-kits/src/graphemes.ts:77-112 | The pieces are non-empty, contiguous, cover the text from 0 to its length, and concatenate to it. |
| Graphemes.SurfacesKeptOrOverlapped | packages/language-kits/src/graphemes.ts:86-104 | Every surface that occurs has its leftmost occurrence as a piece, or that occurrence starts inside the kept leftmost occurrence of another surface. |

## Left out

- The mutation observer of the page controller: inserted nodes shift sibling indices. The tree keeps its shape, and only
  text contents change. The `title` and `data-` attributes, which a restore removes, are not modelled.
- `translateNow` calls that overlap: a run has any number of them, but the model does not tell which call an answer belongs
  to; an answer applies to the table of the most recent call, as in the code.
- JSON parsing itself: the scanner's result is the text handed to `JSON.parse`.
- Ids and content hashes of cues; the json3, srv3 and TTML caption formats; SRT files; cue quality checks.
- `Number` on anything other than the empty string and unsigned decimal literals, which is all that the timestamp pattern
  lets through from a printed file.
- `clampCueTiming`: easy.
- LrcRoundTrip.RoundTripIff: which texts come back is exact for one cue (`LrcTexts.CueRoundTripIff`); lists are stated for
  texts that the format carries.
- Session protocol: the origin check and the bootstrap check of one upgrade are a single step; `now` plus the session's life
  does not overflow; the strength of random tokens. In the fine-grained model an absent origin header is let through, as in
  the code.
- Mailbox: connection state, reconnection and message validation. A timer that is armed may fire at any time.
- Capture: cross-connection races on one job and the registry's own cancel command; writing WAV files; speech recognition
  itself. Rounding of 32-bit floats. A rate on the wire is truncated to 32 bits before the modelled part.
- Fsrs: `exp` and `pow` are parameters, with the facts in `Fsrs.Laws` and `Fsrs.Monotone` taken from analysis and not
  derived.
- Vtt.ParseTimedtextBody: does not model what the json3 and srv parsers make of the texts that reach them.
- Strings with lone surrogates.
- Csv.ExportRoundTrip: does not model a reader that takes carriage return and line feed as the separator; the export
  separates records with a line feed only, and carriage returns are data.
- Graphemes.SplitHighlightSurfaces: does not model `Intl.Segmenter`; texts are given as sequences of graphemes.
- Normalize.TokensAreWords: does not model Unicode's lower-casing tables.
- User interface, storage, networking, model selection, retention presets, the job registry and log redaction.
