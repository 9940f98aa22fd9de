# Deck and film kit: a verified model

Worca's deck kit turns a folder of slides into something that is presented, narrated, packed and
shared; its film kit animates a mascot over time.  This project models the parts of both that carry
real logic and proves what they are for:

| files | what is modelled |
|---|---|
| `Helpers.dfy` | an optional value, and two facts about reals |
| `Crc32.dfy`, `ZipStore.dfy` | the `.deck` packer: the checksum table, the header buffers and the archive, with an independent reader |
| `DeckStage.dfy`, `ThumbRail.dfy` | the `<deck-stage>` element: index, skip marks, move, delete, and the rail's in-place reconcile |
| `DeckEnhance.dfy`, `DeckNarration.dfy` | the stepped reveals and the narration driver |
| `Presentation.dfy`, `Page.dfy` | the three scripts as one transition system with a message queue and pending timers, and the wired objects that perform it |
| `AutoPlay.dfy` | whole runs of auto-play |
| `StateTrack.dfy`, `Track.dfy`, `WalkProfile.dfy` | the film kit's timelines, and the walk's speed profile with its footstep times |
| `DeckAudit.dfy` | the contrast audit's ground compositor, and its forced styles |
| `DeckBundle.dfy` | the bundler's one pass, its three lists, and the second scan of its own output |

Each source object whose methods update fields is a class with these fields; its methods are proved
against functions on plain states, and the theorems are about those functions.  `dafny verify
dfyconfig.toml` checks everything.

## What the proofs found

* **The packer** is exact precisely for entries whose lengths, count and offsets fit the 16- and 32-bit
  fields; nothing in `zipStore` checks that (`ZipFormat.RoundTrip`, `ZipFormat.TooManyEntries`).  The model's reader
  is not ZIP64-aware: it takes 0xFFFF and 0xFFFFFFFF, which APPNOTE.TXT also uses as ZIP64 markers, for plain values.
  It reads archives of stored files as this writer makes them, and refuses one whose headers disagree.
* **A slotchange after a rail edit is dropped.**  A host that changes the slides between a rail edit and
  its pending event is not seen until the next event (`StageSpec.SquelchLosesHostChange`).
* **The narration boots at slide 0.**  The reveals boot from the stage's marker; the narration does not, so
  a deep link whose first message was already delivered leaves the two apart until the next message
  (`Presentation.StartUp`, `Presentation.DeepLinkLost`).
* **A move can stop half way.**  A drop whose slide was removed meanwhile makes the browser throw after the index
  was changed; `StageSpec.RefusedMove` says when the stage is right afterwards.
* **A look-back outlives its session.**  Auto-play started while one is pending can be cut short by it.
  `AutoPlay.AutoPlaySpeaksThePlan` gives the exact condition: harmless are only the look-backs for cues outside
  the plan, and for its last cue unless that cue waits on a later slide left at just its step, where the look-back
  can fire between the slide's announcement and its arrival (`AutoPlay.CurrentHarm`).  That condition is for timers
  that may fire in any order.  In the program a look-back fires 220 ms after its advance (deck-narration.js:249-252),
  and a session first advances the gap after a clip (500 ms unless the script says otherwise, :24, :234) or at least
  400 ms after a cue without one (:228).  So with gaps above 220 ms the old look-backs fire first, and only one for the
  cue on screen can bite (`AutoPlay.EarlyChecksHarmless`).  `AutoPlay.StaleReachable` shows a way there from the booted
  page; it takes three presses within those 220 ms.
* **Call order matters for equal times.**  The comment on `Track` says it never does; `TrackSpec.CallOrderFree` says
  when it does, and the kit's own pop (a jump to 0 and a ramp to 1 at one time, mascot.js:1040) is such a case.  Two
  settings of a `StateTrack` at one moment can defeat the merge that should keep a no-op switch from restarting;
  `StateTrackSpec.SinceIsLast` gives the exact condition on the calls.
* **A replaced call shows.**  After two settings at one moment, `prev` and `next` may name the state of the replaced
  one, which was never shown (`StateTrackSpec.NeighboursAre`), and `until` ends too soon exactly where `since` starts
  too late (`StateTrackSpec.UntilIsNext`).
* **An override can be reversed.**  `override(a, b, v)` does not compare its ends.  One that ends before it starts leaves
  a window covering nothing, and merging that into the one before can cut the latter short: a look-up then answers with
  a state not meant.  One of no length never does that (`StateTrackSpec.SafeOverride`, `StateTrackSpec.ReversedFails`).
* **Re-scanning a bundle is stable exactly when** every payload survives its escape and no unclosed opener finds its
  closer behind, in the source or in a file inlined there (`BundleSpec.RescanExact`); a stray `<!--` and a `</SCRIPT>`
  in capitals both break it (`BundleSpec.StrayOpenerExposesPayload`, `BundleSpec.UppercaseCloseExposesPayload`).

## Model

| member | source | states |
|---|---|---|
| Crc32.BitStepsInjective | assets/deck-kit/deck-export.js:434 | steps of the shift register lose nothing: equal registers after n steps were equal before |
| Crc32.BurstDetected | assets/deck-kit/deck-export.js:440-444 | two messages of equal length that differ only inside some 32 consecutive bits have different checksums |
| Crc32.FourByteChangeDetected | assets/deck-kit/deck-export.js:440-444 | the same for a change inside four consecutive bytes |
| Crc32.TableEntry | assets/deck-kit/deck-export.js:432-436 | the entry for n is the register n after eight bit steps with the reflected polynomial 0xEDB88320 |
| Crc32.BuildTable | assets/deck-kit/deck-export.js:430-438 | all 256 entries are that |
| Crc32.UpdateByte | assets/deck-kit/deck-export.js:442 | one table look-up moves the register as eight bit-at-a-time steps over the byte do |
| Crc32.Checksum | assets/deck-kit/deck-export.js:440-444 | on every byte sequence the table-driven checksum is the bit-at-a-time CRC-32 of section 8 of RFC 1952 |
| Crc32.WordsAgree | assets/deck-kit/deck-export.js:440-444 | two stored checksum words are equal if and only if the reference checksums of their messages are |
| Crc32.CheckValue | assets/deck-kit/deck-export.js:440-444 | the checksum of the nine digits "123456789" is the published check value of CRC-32, 0xCBF43926 |
| ZipFormat.RoundTrip | assets/deck-kit/deck-export.js:447-498 | an independent reader, which demands of every entry the stored method, no flags, version 2.0, the first MS-DOS date, both sizes equal, the checksum as a number, and the same fields and name in both headers, recovers exactly the packed entries in order, if and only if every count, length and offset fits its 16- or 32-bit field |
| ZipFormat.Marks | assets/deck-kit/deck-export.js:456-487 | the record marks are the letters P and K and two more bytes: numbers are written lowest byte first |
| ZipFormat.TooManyEntries | assets/deck-kit/deck-export.js:485-491 | 65,536 empty entries do not read back |
| ZipFormat.DamageRejected | assets/deck-kit/deck-export.js:447-498 | an archive changed inside four consecutive bytes of one entry's data is refused by that reader |
| ZipStore.SetUint16 | assets/deck-kit/deck-export.js:457-459 | a little-endian 16-bit field: the low 16 bits, at its place, and nothing else changes |
| ZipStore.SetUint32 | assets/deck-kit/deck-export.js:456-462 | a little-endian 32-bit field, likewise |
| ZipStore.SetCrc | assets/deck-kit/deck-export.js:460 | the checksum field holds the checksum's four bytes, lowest first |
| ZipStore.LocalHeaderBuffer | assets/deck-kit/deck-export.js:454-464 | the buffer ends up as the local file header of section 4.3.7 of APPNOTE.TXT |
| ZipStore.CentralHeaderBuffer | assets/deck-kit/deck-export.js:467-478 | the buffer ends up as the central directory header of section 4.3.12, with the running offset |
| ZipStore.EndRecordBuffer | assets/deck-kit/deck-export.js:485-491 | the buffer ends up as the end record of section 4.3.16 |
| ZipStore.Join | assets/deck-kit/deck-export.js:493-497 | the output holds the chunks one after another |
| ZipStore.ZipStore | assets/deck-kit/deck-export.js:447-498 | the whole writer produces the archive of its entries, which reads back as these entries exactly when all fields fit |
| StageSpec.LiveIndexNearest | assets/deck-kit/deck-stage.js:1261-1273 | any target lands in range and, whenever a slide is not skipped, on such a slide: the clamped one, else the nearest later, else the nearest earlier |
| StageSpec.LastLiveMeaning | assets/deck-kit/deck-stage.js:1231-1238 | the last-visible mark is on a slide if and only if it is the last one not skipped |
| StageSpec.SkippedMeaning | assets/deck-kit/deck-stage.js:2012-2018 | the reported indices of skipped slides are strictly ascending, and hold a position if and only if the slide there is skipped |
| StageSpec.GoSound | assets/deck-kit/deck-stage.js:1591-1608 | a jump ends on its target's slide, clamped, else on the nearest later one not skipped, else on the nearest earlier; it keeps the state right and tells everyone, as a Reset when forced and already there, and unforced and already there changes nothing |
| StageSpec.AdvanceSound | assets/deck-kit/deck-stage.js:1613-1621 | a step keeps the state right, moves to the nearest live slide in its direction and tells everyone, or changes nothing because there is none |
| StageSpec.SlotChangeSound | assets/deck-kit/deck-stage.js:1186-1199 | collecting, restoring and applying make the whole state right, end on the slide the hash names or near the old one, and tell everyone; a squelched event only ends the squelch |
| StageSpec.DeleteSound | assets/deck-kit/deck-stage.js:1976-1993 | deleting removes exactly that slide, keeps the state right, lands on or next to the slide wished for, and tells everyone; with one slide or none there it changes nothing |
| StageSpec.DeleteKeepsSlide | assets/deck-kit/deck-stage.js:1978-1980 | deleting another slide keeps the presented slide element when it is not skipped |
| StageSpec.DeleteShowsHeir | assets/deck-kit/deck-stage.js:1976-1993 | deleting the presented slide shows the one that followed it, or the one before when it was the last, or the one nearest to that which is not skipped |
| StageSpec.ToggleSkipSound | assets/deck-kit/deck-stage.js:1995-2010 | toggling turns the mark of that slide and of no other, tells it, and changes nothing else but the last-visible mark |
| StageSpec.SlidesDragged | assets/deck-kit/deck-stage.js:2023-2032 | whatever nodes lie between the slides, the one insertBefore reorders the slides as a move from i to j |
| StageSpec.MoveSound | assets/deck-kit/deck-stage.js:2020-2036 | moving keeps the state right even when the host changed the children unseen, which the move then notices; with nothing unseen it reorders the slides exactly so; and it tells everyone |
| StageSpec.RefusedMove | assets/deck-kit/deck-stage.js:2022-2032 | a move the browser refuses half way (a slide that is gone, a reference that is no longer a child) leaves the state right if and only if the presented slide lies outside the stretch moved over |
| StageSpec.MoveKeepsSlide | assets/deck-kit/deck-stage.js:2026-2029 | moving any slide keeps the presented slide element |
| StageSpec.MoveTakesOne | assets/deck-kit/deck-stage.js:2022-2032 | among the children, text and other nodes included, only the node moved changes its place |
| StageSpec.DeleteTakesOne | assets/deck-kit/deck-stage.js:1976-1984 | a deletion takes exactly the node of the slide out of the children |
| StageSpec.MarksElsewhere | assets/deck-kit/deck-stage.js:1231-1304 | an element that left the deck keeps the marks it had |
| StageSpec.PostTells | assets/deck-kit/deck-stage.js:1318 | a message carries the index, the number of slides and exactly the skipped places, ascending |
| StageSpec.DropLandsBeside | assets/deck-kit/deck-stage.js:1758-1768 | a dropped thumbnail puts its slide right before or after the slide it was dropped on |
| StageSpec.SlotChangeSyncs | assets/deck-kit/deck-stage.js:1194 | after a slotchange the slide list matches the children if and only if the event was not squelched or nothing was new |
| StageSpec.SquelchLosesHostChange | assets/deck-kit/deck-stage.js:1194 | a host's change made right after a rail delete is lost exactly when it changes the slides |
| DeckStage.DeckStage.MarkLastVisible | assets/deck-kit/deck-stage.js:1231-1238 | the loop leaves the mark on the last live slide only |
| DeckStage.DeckStage.CollectSlides | assets/deck-kit/deck-stage.js:1201-1226 | reads the slides from the children, numbers them and clamps the index |
| DeckStage.DeckStage.LiveIndex | assets/deck-kit/deck-stage.js:1261-1273 | the two search loops compute the nearest live index |
| DeckStage.DeckStage.RestoreIndex | assets/deck-kit/deck-stage.js:1275-1291 | the hash, when in range, or the index, moved off a skipped slide |
| DeckStage.DeckStage.Skipped | assets/deck-kit/deck-stage.js:2012-2018 | the loop collects the indices that `SkippedMeaning` describes |
| DeckStage.DeckStage.ApplyIndex | assets/deck-kit/deck-stage.js:1293-1342 | stamps hash and active mark, posts one message and fires one event |
| DeckStage.DeckStage.OnSlotChange | assets/deck-kit/deck-stage.js:1186-1199 | performs the specified transition |
| DeckStage.DeckStage.Go | assets/deck-kit/deck-stage.js:1591-1608 | performs the specified transition |
| DeckStage.DeckStage.Advance | assets/deck-kit/deck-stage.js:1613-1621 | performs the specified transition |
| DeckStage.DeckStage.DeleteSlide | assets/deck-kit/deck-stage.js:1976-1993 | performs the specified transition |
| DeckStage.DeckStage.ToggleSkip | assets/deck-kit/deck-stage.js:1995-2010 | performs the specified transition |
| DeckStage.DeckStage.MoveSlide | assets/deck-kit/deck-stage.js:2020-2036 | performs the specified transition for any two indices, or says that the browser threw and what that leaves behind |
| DeckStage.DeckStage.OnDrop | assets/deck-kit/deck-stage.js:1758-1768 | turns a drop on one side of a thumbnail into the move specified, stale indices included |
| ThumbRail.PlacedStep | assets/deck-kit/deck-stage.js:1663-1666 | one insertBefore extends the part of the rail that is in the wanted order by one thumb |
| ThumbRail.AllPlaced | assets/deck-kit/deck-stage.js:1663-1672 | once every thumb is placed the rail holds these thumbs and nothing else |
| ThumbRail.ThumbRail.Reuse | assets/deck-kit/deck-stage.js:1648-1654 | every slide that has a thumb keeps that very object, every other gets a new one, and the rest are orphans |
| ThumbRail.ThumbRail.DropOrphans | assets/deck-kit/deck-stage.js:1656-1659 | exactly the orphans leave the rail |
| ThumbRail.ThumbRail.Reorder | assets/deck-kit/deck-stage.js:1663-1671 | the in-place loop ends with the rail in slide order, each thumb knowing its position and skip mark |
| ThumbRail.ThumbRail.RenderRail | assets/deck-kit/deck-stage.js:1632-1672 | for any old and new slide list: children are the thumbs in slide order, the same object for a slide that stays and only then, stored positions right |
| EnhanceSpec.DotsShowStep | assets/deck-kit/deck-enhance.js:66-74 | counting the lit dots of a slide gives its reveal step |
| EnhanceSpec.ShownUpToStep | assets/deck-kit/deck-enhance.js:23-33 | in every tracked state an element is visible if and only if its number is at most the slide's step, current if and only if equal, past if and only if between 0 and the step; and the dot of that number is lit and current with it |
| EnhanceSpec.ConsumesMeaning | assets/deck-kit/deck-enhance.js:221-238 | a key is used up by a reveal if and only if there is one to do: an element still hidden, going forward, or a step shown, going back |
| EnhanceSpec.RevealShows | assets/deck-kit/deck-enhance.js:225-238 | going forward shows exactly the elements of the next step and hides none; going back hides exactly those of the step left and shows none |
| EnhanceSpec.ReceiveEffect | assets/deck-kit/deck-enhance.js:125-149 | a message zeroes the step of the slide it shows if and only if another element came on screen or it is a Reset, touches no other slide, and puts the entrance class on the slide it shows |
| EnhanceSpec.RevealEffect | assets/deck-kit/deck-enhance.js:225-238 | a step key moves the shown slide by one step within its range and touches no other |
| EnhanceSpec.InitMissingTracks | assets/deck-kit/deck-enhance.js:448-451 | the mutation observer starts new slides and keeps every step it finds |
| EnhanceSpec.InitAllTracks | assets/deck-kit/deck-enhance.js:116-123 | booting shows the slide the stage marks, with the entrance class on it, every slide at step 0 |
| EnhanceSpec.CurrentIndexMeaning | assets/deck-kit/deck-enhance.js:100-109 | booting looks at the first slide marked, else at the one the hash names, else at the first |
| DeckEnhance.DeckEnhance.LastStep | assets/deck-kit/deck-enhance.js:35-42 | the largest step number of a slide, 0 without any |
| DeckEnhance.DeckEnhance.ApplyStep | assets/deck-kit/deck-enhance.js:23-33 | step, step classes and dots set as specified; `ShownUpToStep` says what that shows |
| DeckEnhance.DeckEnhance.EnsureDots | assets/deck-kit/deck-enhance.js:44-64 | dots exist exactly on slides with steps, one per step |
| DeckEnhance.DeckEnhance.Activate | assets/deck-kit/deck-enhance.js:81-85 | performs the specified transition |
| DeckEnhance.DeckEnhance.InitAll | assets/deck-kit/deck-enhance.js:100-123 | performs the specified transition |
| DeckEnhance.DeckEnhance.OnMessage | assets/deck-kit/deck-enhance.js:125-149 | performs the specified transition |
| DeckEnhance.DeckEnhance.OnStepKey | assets/deck-kit/deck-enhance.js:221-238 | says whether the key is used up by a reveal, and performs exactly that reveal |
| DeckEnhance.DeckEnhance.OnChildren | assets/deck-kit/deck-enhance.js:448-451 | performs the specified transition |
| NarrationSpec.SingleDriverMeaning | assets/deck-narration/deck-narration.js:205-212 | at most one advance timer is ever pending |
| NarrationSpec.SpeakSingle | assets/deck-narration/deck-narration.js:219-240 | speaking establishes that invariant |
| NarrationSpec.EndedSingle | assets/deck-narration/deck-narration.js:232-235 | the end of a clip keeps it |
| NarrationSpec.PressesSingle | assets/deck-narration/deck-narration.js:383-391 | both buttons keep it |
| NarrationSpec.CheckCueSingle | assets/deck-narration/deck-narration.js:292-297 | the watcher keeps it |
| NarrationSpec.StopAutoplaySingle | assets/deck-narration/deck-narration.js:279-284 | stopping auto-play keeps it |
| NarrationSpec.SpeakMeaning | assets/deck-narration/deck-narration.js:219-240 | speaking plays the clip of the cue, or without one leaves an advance pending under auto-play; with narration off it is silent |
| NarrationSpec.NarrateToggles | assets/deck-narration/deck-narration.js:261-272 | the Narrate button turns narration over: off is silence without auto-play, on speaks the cue on screen; without clips it turns nothing on |
| NarrationSpec.PlayToggles | assets/deck-narration/deck-narration.js:273-284 | the Auto-play button turns auto-play over: off is silence with narration left on, on speaks the cue on screen with narration on |
| NarrationSpec.CheckCueMeaning | assets/deck-narration/deck-narration.js:292-297 | a cue that came on screen is spoken once, and not again while it stays |
| NarrationSpec.EndedMeaning | assets/deck-narration/deck-narration.js:232-235 | the end of a clip leaves an advance pending if and only if auto-play is on |
| DeckNarration.Driver.constructor | assets/deck-narration/deck-narration.js:180-191 | boot: nothing playing, the watcher seeded with the cue on screen |
| DeckNarration.Driver.Speak | assets/deck-narration/deck-narration.js:219-240 | performs the specified transition |
| DeckNarration.Driver.OnEnded | assets/deck-narration/deck-narration.js:232-235 | performs the specified transition |
| DeckNarration.Driver.SetNarration | assets/deck-narration/deck-narration.js:261-272 | performs the specified transition |
| DeckNarration.Driver.StartAutoplay | assets/deck-narration/deck-narration.js:273-278 | performs the specified transition |
| DeckNarration.Driver.StopAutoplay | assets/deck-narration/deck-narration.js:279-284 | performs the specified transition |
| DeckNarration.Driver.CheckCue | assets/deck-narration/deck-narration.js:292-297 | performs the specified transition |
| DeckNarration.Driver.OnNarrate | assets/deck-narration/deck-narration.js:383-386 | performs the specified transition |
| DeckNarration.Driver.OnPlay | assets/deck-narration/deck-narration.js:387-391 | performs the specified transition |
| DeckNarration.Driver.OnEndCheck | assets/deck-narration/deck-narration.js:249-252 | the look-back stops auto-play exactly when the cue did not change |
| Presentation.StepKeepsInv | assets/deck-kit/deck-stage.js:1293-1342 | every event the page can produce, the public next() and prev() included, keeps the joint invariant of stage, reveals and narration |
| Presentation.EveryRunKeepsInv | assets/deck-narration/deck-narration.js:188-301 | in every state of every run the deck is right, reveals agree with their dots, the driver is single, and all listeners agree with the stage once no message is pending |
| Presentation.EveryRunTells | assets/deck-kit/deck-stage.js:1318 | in every state of every run the newest message on its way tells index, number and skipped slides of the stage, and with none on its way the entrance class is on the presented slide only |
| Presentation.BootTells | assets/deck-kit/deck-stage.js:1318 | and so at the start |
| Presentation.KeyMeaning | assets/deck-kit/deck-enhance.js:221-248 | a key moves the reveals of the slide on screen as far as they go, and only then the stage, in the same direction, and never both |
| Presentation.CallMeaning | assets/deck-kit/deck-stage.js:2050-2051 | next() and prev() move the stage one step in their direction and leave the reveals alone |
| Presentation.StageEventMeaning | assets/deck-kit/deck-stage.js:1591-2036 | as an event of the whole page, a jump lands where it is aimed, a deletion, a move and a skip do just that, none touches the reveals, and the driver hears the new index |
| Presentation.DriverEventMeaning | assets/deck-narration/deck-narration.js:261-297 | as events of the whole page, the buttons and the watcher act on the cue on screen and on the driver only |
| Presentation.SeenMeaning | assets/deck-kit/deck-enhance.js:448-451 | the mutation observer starts new slides, keeps every step and puts the entrance class on the slide last told |
| Presentation.StartUp | assets/deck-narration/deck-narration.js:158-164 | start-up meets the invariant while the first message is on its way; had it been lost, if and only if the deck opened on its first slide |
| Presentation.BootIsSilent | assets/deck-narration/deck-narration.js:158-191 | a booted page is silent, narration on as it was stored, and the watcher finds nothing new |
| Presentation.DeepLinkLost | assets/deck-narration/deck-narration.js:158-164 | a deck of two slides opened at its second does break the invariant when its first message is lost |
| Presentation.NextMessageHeals | assets/deck-narration/deck-narration.js:159-164 | a lost first message is made good by the next one |
| Presentation.CatchUp | assets/deck-kit/deck-enhance.js:125-149 | after any stage operation and its delivery every slide keeps its step, except that a newly shown or reset slide starts from zero |
| Presentation.RailEditKeepsContent | assets/deck-kit/deck-stage.js:1976-2035 | moving any slide, deleting or skipping another, with a live slide presented, keeps the same element on screen and every reveal step |
| Presentation.DeletePresentedStartsClean | assets/deck-kit/deck-stage.js:1976-1993 | deleting the presented slide shows another one from its first step |
| Presentation.NavigationZeroes | assets/deck-kit/deck-stage.js:1591-1607 | navigation lands where it is aimed, zeroes the slide it arrives on, Reset even the one already shown, and every other slide keeps its step |
| Presentation.ResetStartsOver | assets/deck-kit/deck-stage.js:1572-1593 | Reset ends on the first slide that is not skipped, at step zero |
| Page.Page.Boot | assets/deck-narration/deck-narration.js:158-191 | booting the three objects gives the booted state that `StartUp` speaks of, and the invariant |
| Page.Page.OnKey | assets/deck-kit/deck-enhance.js:221-248 | reveals first, then the slide: the wired objects perform the specified step |
| Page.Page.OnCall | assets/deck-kit/deck-stage.js:2050-2051 | next() and prev() move the slide at once, past reveals not yet shown |
| Page.Page.OnDeliver | assets/deck-kit/deck-enhance.js:125-149 | one delivered message updates both listeners as specified |
| Page.Page.OnFire | assets/deck-narration/deck-narration.js:245-253 | a fired timer presses the forward key or looks back, as specified |
| Page.Page.OnEvent | assets/deck-narration/deck-narration.js:199-301 | one event handled by the three objects is one step of the transition system, and keeps its invariant |
| AutoPlay.PlanMeaning | assets/deck-narration/deck-narration.js:242-253 | the plan after a cue is strictly ascending and holds exactly the later steps of its slide and all steps of every later slide not skipped |
| AutoPlay.AutoStep | assets/deck-narration/deck-narration.js:219-297 | one automatic event of an auto-play run stays on course, keeps what the run will leave unspoken, and either changes nothing or lowers the remaining work |
| AutoPlay.AutoPlayCourse | assets/deck-narration/deck-narration.js:219-297 | left alone, auto-play has always spoken a beginning of the plan, changes state only so many times, keeps narration on, and at rest is off and silent |
| AutoPlay.CurrentHarm | assets/deck-narration/deck-narration.js:249-252 | in every phase of a run, a look-back for the current cue is harmful if and only if stopping there leaves a cue unspoken |
| AutoPlay.AutoPlaySpeaksThePlan | assets/deck-narration/deck-narration.js:219-297 | every run that comes to rest has spoken the whole plan, once and in order, if and only if no look-back of an earlier session is pending for a cue of the plan that is not its last, or for its last cue on a later slide left at just that step |
| AutoPlay.AutoPlayFinishes | assets/deck-narration/deck-narration.js:219-297 | from any state of such a run the page can come to rest, with as much left unspoken as the state foretold |
| AutoPlay.HarmBreaks | assets/deck-narration/deck-narration.js:249-252 | a harmful pending look-back does cut some run short, from any state of a run |
| AutoPlay.StaleCheckStops | assets/deck-narration/deck-narration.js:249-252 | the nearest such run: a look-back pending for the cue on screen, with more to come, stops a new session after that cue |
| AutoPlay.EarlyChecksHarmless | assets/deck-narration/deck-narration.js:219-253 | when the old look-backs fire before the session first advances, only one for the cue on screen can keep a run from speaking the whole plan |
| AutoPlay.LeavesStale | assets/deck-narration/deck-narration.js:242-284 | on a slide with reveals to come, a session stopped after its first advance and taken one reveal back leaves a harmful look-back for the next |
| AutoPlay.StaleReachable | assets/deck-narration/deck-narration.js:158-284 | from the booted page of any deck with clips that opens on a slide with steps, a run leads to a state where Auto-play can be pressed and not every run speaks its plan |
| Timeline.SortedOrdered | assets/promo-kit/film/mascot.js:158 | the stable sort orders (its contract: a permutation) |
| StateTrackSpec.LatestMeaning | assets/promo-kit/film/mascot.js:158-159 | the setting in force: none later at or before t, and the last call among those at its time |
| StateTrackSpec.CoveringMeaning | assets/promo-kit/film/mascot.js:162-171 | the override in force: it covers t, none covering t starts later, and it is the last call among those starting together |
| StateTrackSpec.BaseFind | assets/promo-kit/film/mascot.js:159-160 | the base windows show the last setting at or before t |
| StateTrackSpec.PunchedFind | assets/promo-kit/film/mascot.js:162-171 | punching a window in keeps the tiling, shows the override inside and changes no lookup outside |
| StateTrackSpec.MergedFind | assets/promo-kit/film/mascot.js:173-175 | merging equal neighbours keeps the tiling and every lookup, and leaves no equal neighbours |
| StateTrackSpec.CompiledMeaning | assets/promo-kit/film/mascot.js:157-176 | after any calls the windows tile the time line and the window at t shows the latest-starting override covering t, else the last setting, else the initial state |
| StateTrackSpec.SampleMeaning | assets/promo-kit/film/mascot.js:177-182 | the answer at t is that state, the state at every moment it reaches back and forward to, and its two neighbours are other states |
| StateTrackSpec.SinceIsLast | assets/promo-kit/film/mascot.js:173-182 | `since` always reaches back to a real switch, with another state right before it, if and only if no moment has a replaced call with another value, no override across it, and the same state before and after |
| StateTrackSpec.SinceAt | assets/promo-kit/film/mascot.js:173-182 | the same at one time: the state right before the moment reached back to is the current one exactly if that moment is such a restart |
| StateTrackSpec.UntilIsNext | assets/promo-kit/film/mascot.js:173-182 | `until` always reaches forward to a real switch, with another state from there on, under exactly the same condition |
| StateTrackSpec.UntilAt | assets/promo-kit/film/mascot.js:173-182 | the same at one time |
| StateTrackSpec.NeighboursAre | assets/promo-kit/film/mascot.js:177-182 | `prev` is the state right before the moment reached back to, `next` the one from the moment reached forward to, or that of a setting replaced at that very moment |
| StateTrackSpec.CompiledEmpty | assets/promo-kit/film/mascot.js:157-171 | the empty windows left to merge are exactly the replaced calls not strictly inside an override |
| StateTrackSpec.BeforeIsLimit | assets/promo-kit/film/mascot.js:157-171 | the state right before a moment, read off the calls, is the one shown for some time up to it |
| StateTrackSpec.SameMomentRestarts | assets/promo-kit/film/mascot.js:173-175 | with two settings at one moment it happens: the state is constant and `since` restarts |
| StateTrackSpec.StateMeaning | assets/promo-kit/film/mascot.js:157-182 | the state answered is the one meant at every time, for overrides of any length, if those that end before they start show another state than the one right before their start |
| StateTrackSpec.SafeOverride | assets/promo-kit/film/mascot.js:161-175 | an override can be called among any upright calls without ever spoiling an answer if and only if it does not end before it starts |
| StateTrackSpec.ReversedFails | assets/promo-kit/film/mascot.js:161-175 | for every override that ends before it starts, calls around it after which a look-up answers with a state not meant |
| StateTrack.StateTrack.Set | assets/promo-kit/film/mascot.js:155 | records the call and drops the compiled list |
| StateTrack.StateTrack.AddOverride | assets/promo-kit/film/mascot.js:156 | records the call, whatever its ends, and drops the compiled list |
| StateTrack.StateTrack.Compile | assets/promo-kit/film/mascot.js:157-176 | the loops compute the compiled list |
| StateTrack.StateTrack.Punch | assets/promo-kit/film/mascot.js:162-171 | the punching loop and sort compute one punched list |
| StateTrack.StateTrack.Merge | assets/promo-kit/film/mascot.js:173-175 | the merging loop computes the merged list |
| StateTrack.StateTrack.StateAt | assets/promo-kit/film/mascot.js:177-182 | compiles when needed and answers with the scan of the compiled list, which is the state meant at t unless an override that ends before it starts shows the state right before its start |
| TrackSpec.CallOrderFree | assets/promo-kit/film/mascot.js:134-139 | with a jump wherever calls share a moment, calls at one moment with one target make every order give the same value at every time; and if nothing starts before such calls are over, only they do |
| TrackSpec.JumpsOrderFree | assets/promo-kit/film/mascot.js:134-139 | when only jumps share a moment that is exact as it stands |
| TrackSpec.DistinctFree | assets/promo-kit/film/mascot.js:134-139 | in particular the order never matters for calls at distinct times |
| TrackSpec.LastCallWins | assets/promo-kit/film/mascot.js:138-139 | of the calls at one moment the last one decides the value once it is over, until something else starts |
| TrackSpec.SameStartOrder | assets/promo-kit/film/mascot.js:134-135 | two jumps at one time with two targets depend on the order, against the comment in the source |
| TrackSpec.MoveMeaning | assets/promo-kit/film/mascot.js:134-147 | at any time the value is that of the last move started: from the value it found in a straight line as far towards its target as its easing says, also beyond either end, and at the target from its end on |
| TrackSpec.NothingStarted | assets/promo-kit/film/mascot.js:140-142 | before every move it is the initial value |
| TrackSpec.Overshoots | assets/promo-kit/film/mascot.js:29 | a move along the overshooting easing does pass its target before it settles |
| TrackSpec.ValueContinuous | assets/promo-kit/film/mascot.js:134-147 | events of positive length with easings from 0 to 1 leave the value continuous, however they overlap |
| TrackSpec.TrackContinuous | assets/promo-kit/film/mascot.js:134-147 | the same for any order of the calls |
| TrackSpec.KitEasings | assets/promo-kit/film/mascot.js:23-37 | linear, smooth, the powers in, out and in-out, and the overshooting easings by any amount are such easings |
| TrackSpec.SineEasing | assets/promo-kit/film/mascot.js:24 | so is the default one, for any continuous cosine with its values at 0 and at half its period |
| TrackSpec.EasingShapes | assets/promo-kit/film/mascot.js:23-37 | which easing is which: the powers by their degree, each `out` its `in` run backwards, the symmetric ones their own mirror image |
| TrackSpec.SineMirror | assets/promo-kit/film/mascot.js:24 | the default one is symmetric too, for a symmetric cosine |
| Track.Track.Add | assets/promo-kit/film/mascot.js:138 | records the call with its duration at least 0 |
| Track.Track.ScanTo | assets/promo-kit/film/mascot.js:140-147 | the scan over filled-in events computes the recursive value: each event starts from what the earlier ones give at its time |
| Track.Track.Compile | assets/promo-kit/film/mascot.js:139 | sorting and filling in compute the events of that definition |
| Track.Track.ValueNow | assets/promo-kit/film/mascot.js:148 | the value at t, compiled when needed |
| Track.Track.LastTarget | assets/promo-kit/film/mascot.js:149 | the target of the last call in time order, the later call at equal times, or the initial value |
| WalkProfile.PlannedProper | assets/promo-kit/film/mascot.js:649-650 | the walk takes the time wanted, at least 0.3 seconds, and ramps for three tenths of it, capped at 0.14 seconds when running and 0.2 otherwise |
| WalkProfile.ThreePhases | assets/promo-kit/film/mascot.js:651 | the profile is the sum of what accelerating, cruising and braking covered so far |
| WalkProfile.Steady | assets/promo-kit/film/mascot.js:651 | the distance never shrinks and never grows faster than the cruising speed |
| WalkProfile.Ends | assets/promo-kit/film/mascot.js:651 | 0 until the start, the whole distance from the end on and not before |
| WalkProfile.Continuous | assets/promo-kit/film/mascot.js:651 | the profile is continuous, with an explicit tolerance |
| WalkProfile.FirstTickMeaning | assets/promo-kit/film/mascot.js:664-666 | the first tick is never before the target is reached and less than one tick after |
| WalkProfile.FirstReached | assets/promo-kit/film/mascot.js:664-666 | thirty halvings return the first multiple of T/2^30 at which the target is reached |
| WalkProfile.TargetsRise | assets/promo-kit/film/mascot.js:664 | the footsteps are evenly spaced and the last one is at the end |
| WalkProfile.StepCues | assets/promo-kit/film/mascot.js:663-667 | one such time per footstep |
| WalkProfile.CuesInOrder | assets/promo-kit/film/mascot.js:663-667 | footsteps come in order, distinct below 0.7 times 2^30 of them, the last exactly at the end |
| GroundSpec.EarlyExitPreservesGround | assets/deck-kit/deck-audit.js:179-258 | with every paint readable, stopping at the first opaque layer gives the same grounds in the same order as the full stack |
| GroundSpec.PlainGround | assets/deck-kit/deck-audit.js:64-67 | where every paint is one colour there is one ground, in each channel the sum over the colours from the text outwards of level times alpha times what shows through those above, and of the fallback what shows through all |
| GroundSpec.WalkIsPrefix | assets/deck-kit/deck-audit.js:179-237 | the walk collects exactly the stack down to its first opaque layer |
| GroundSpec.KeptAreComposites | assets/deck-kit/deck-audit.js:242-257 | every ground kept is an exact composite of one stop per layer |
| GroundSpec.CompositesSeen | assets/deck-kit/deck-audit.js:242-257 | and such a composite is that sum for the stops chosen |
| GroundSpec.SeenIsComposite | assets/deck-kit/deck-audit.js:242-257 | for every choice of one stop per layer there is such a composite |
| GroundSpec.CompositeAt | assets/deck-kit/deck-audit.js:246-252 | composites come ground by ground, and for each in the order of the stops |
| GroundSpec.DistinctPlaces | assets/deck-kit/deck-audit.js:243-256 | dropping duplicates keeps, in order, exactly the colours whose nearest whole numbers did not come before |
| GroundSpec.StopsCombine | assets/deck-kit/deck-audit.js:64-67 | two translucent stops look like one of the alpha a1 + a2(1 - a1) with their colours in proportion |
| GroundSpec.ClearStop | assets/deck-kit/deck-audit.js:64-67 | a stop without alpha leaves the ground as it is |
| GroundSpec.KeptWithin | assets/deck-kit/deck-audit.js:242-257 | every composite has a kept ground within one per layer in each channel |
| GroundSpec.PaintedClose | assets/deck-kit/deck-audit.js:64-67 | compositing a stop over two grounds never moves them apart |
| DeckAudit.CollectPaints | assets/deck-kit/deck-audit.js:179-237 | the walk with its early exits and its refusals |
| DeckAudit.CompositeLayer | assets/deck-kit/deck-audit.js:243-256 | the nested loop with its set of seen keys keeps the first of each rounded colour |
| DeckAudit.EffectiveBackground | assets/deck-kit/deck-audit.js:174-258 | None when an unreadable paint is met, else the candidate grounds; for plain colours the one ground `PlainGround` describes |
| DeckAudit.SlideIsLast | assets/deck-kit/deck-audit.js:236 | the paints of the slide count and those around it do not |
| DeckAudit.SplitTopLevel | assets/deck-kit/deck-audit.js:71-83 | the layers are the trimmed pieces of the split at top-level commas that are not empty |
| DeckAudit.SplitUnique | assets/deck-kit/deck-audit.js:71-82 | there is only one split whose pieces join to the declaration, hold no comma outside parentheses and, all but the last, are balanced |
| DeckAudit.SplitCuts | assets/deck-kit/deck-audit.js:71-82 | it cuts at exactly the commas before which as many parentheses were closed as opened |
| DeckAudit.LayersMeaning | assets/deck-kit/deck-audit.js:83 | the layers are exactly the trimmed pieces that are not blank, in their order |
| DeckAudit.TrimMeaning | assets/deck-kit/deck-audit.js:83 | trimming takes off blanks at both ends, and all of them |
| DeckAudit.ForceVisible | assets/deck-kit/deck-audit.js:561-575 | forcing remembers the author's style once; releasing puts exactly that back |
| DeckAudit.ForcedMeaning | assets/deck-kit/deck-audit.js:571-574 | a forced style is the author's declarations, without a last semicolon and the blanks after it, and then those the audit needs |
| DeckAudit.ShowOnly | assets/deck-kit/deck-audit.js:599 | one slide forced, every other one as authored |
| DeckAudit.Run | assets/deck-kit/deck-audit.js:598-617 | slide i is measured while exactly it is forced, and in the end every inline style, absent or text, is what it was |
| BundleSpec.ScanLossless | scripts/deck-bundle.py:268-277 | the regions are the document, cut up |
| BundleSpec.ScanCut | scripts/deck-bundle.py:268-277 | a region is claimed from an opener to its first closer, and an opener is left alone only when no closer follows |
| BundleSpec.RegionKinds | scripts/deck-bundle.py:282-396 | which regions count as a script with a src, a style block, a linked stylesheet and a picture |
| BundleSpec.BundleMeaning | scripts/deck-bundle.py:279-409 | the bundle is the deck region by region: an inlined script holds its file lexeme for lexeme except that a lower-case close tag is escaped, with the attributes other than defer and async; an inlined sheet and a style block hold theirs with every url() that has a file replaced by its data: URI, found from the sheet's own folder; a media tag points to its file's data: URI; all else is as it was |
| BundleSpec.CodeReadsBack | scripts/deck-bundle.py:320-322 | undoing the escape gives the file back if and only if it does not hold the escaped tag already |
| BundleSpec.UseMeaning | scripts/deck-bundle.py:279-396 | the references met in a region are exactly those of its script, its sheet and the url()s of that, its style text, or its media tag |
| BundleSpec.FateMeaning | scripts/deck-bundle.py:198-227 | a reference is left only when there is nothing to fetch, inlined only when its file is there, and otherwise recorded for the reason that holds |
| BundleSpec.FateOrder | scripts/deck-bundle.py:198-227 | each list holds its references in the order they were met |
| BundleSpec.UrlOrder | scripts/deck-bundle.py:198-227 | and those of a style text in the order of the text |
| BundleSpec.Accounted | scripts/deck-bundle.py:198-227 | each reference met is inlined, left because it is data:, a fragment or empty, or recorded in exactly one list |
| BundleSpec.UntouchedRegion | scripts/deck-bundle.py:279-409 | a region of which nothing is inlined is written as it was |
| BundleSpec.StyleChangesOnlyUrls | scripts/deck-bundle.py:282-293 | a style block changes only where a url() was inlined, and there into a data: URI |
| BundleSpec.RescanExact | scripts/deck-bundle.py:398-424 | the second scan finds every written region whole, as written, if and only if every payload inlined holds no close tag that ends it and no opener left in the document finds a closer behind it, in the source or in a file inlined there |
| BundleSpec.SourceDecides | scripts/deck-bundle.py:295-360 | whether an opener left in the document finds a closer in what is written behind it is decided by the source and the files inlined there, for gaps and for scripts left as they are |
| BundleSpec.StrayClosedByPayload | scripts/deck-bundle.py:295-360 | what is written for some regions holds the closer of a given opener if and only if the source does there or some file inlined there does |
| BundleSpec.ReportsWhatIsLeft | scripts/deck-bundle.py:412-424 | with plain scripts, fitting payloads and no stray opener closed, the check reports exactly the scripts and stylesheets there is no file for, in document order |
| BundleSpec.CleanBundleHasNoLiveRefs | scripts/deck-bundle.py:412-424 | so with nothing recorded the check reports no reference but data: URIs |
| BundleSpec.StrayOpenerExposesPayload | scripts/deck-bundle.py:412-424 | with a stray opener closed it can: a concrete deck where the check reports a reference quoted inside a payload |
| BundleSpec.UppercaseCloseExposesPayload | scripts/deck-bundle.py:320-322 | so can a payload with a close tag in capitals, which the escape misses |
| DeckBundle.NothingRecorded | scripts/deck-bundle.py:198-227 | the three lists stay empty if and only if every reference met was inlined or left alone |
| DeckBundle.VerdictIsRight | scripts/deck-bundle.py:412-424 | the program's verdict for such decks, told by the source and the files, is right |
| DeckBundle.Bundler.InlineCssUrls | scripts/deck-bundle.py:198-227 | rewrites the url()s and records the others, in order |
| DeckBundle.Bundler.HandleStyle | scripts/deck-bundle.py:282-293 | as specified for a style block |
| DeckBundle.Bundler.HandleScript | scripts/deck-bundle.py:295-322 | as specified for a script block |
| DeckBundle.Bundler.HandleLink | scripts/deck-bundle.py:324-360 | as specified for a link, with the sheet's own folder for its url()s |
| DeckBundle.Bundler.HandleMedia | scripts/deck-bundle.py:362-396 | as specified for a media tag |
| DeckBundle.Bundler.Bundle | scripts/deck-bundle.py:279-409 | the pass writes the specified result, which `BundleMeaning` describes, and every reference met ends in exactly the list specified, in document order |

## Left out

- Character level of HTML, CSS and the regular expressions: the bundler works on lexemes (openers, closers, tags, url()s, text), so an opener inside an attribute value, overlapping openers such as `<!-->`, and a tag with several src attributes are not expressible.
- Path resolution, symbolic links, MIME types and base64 in the bundler: a file system answers each reference with its text, its data: URI and its folder, or with absent or escaping.
- `rel` and attribute parsing of links: a link carries where the word `stylesheet` stands in it.
- UTF-8 encoding of ZIP entry names: a name is its bytes; general-purpose flag bit 11 is not set by the source.
- Children of the stage that are slotted but not `<section>`: the reveals and the narration count sections, the stage counts every slotted element; the joint system has only sections and non-slide nodes.
- Host edits of the children during a presentation: they are modelled for the stage alone, not in the joint system.
- A hash changed by the user while presenting, edit mode, full screen, the presenter pop-up, overlays, fonts, notes and layout.
- Times of the narration's timers: pending timers fire in any order, so the 120, 220 and 400 millisecond delays impose nothing by themselves (`AutoPlay.EarlyChecksHarmless` takes the order they give as its hypothesis); in the runs of `AutoPlay` a posted message arrives before the watcher's next look, as message tasks do.
- StateTrackSpec.CompiledMeaning: like `SampleMeaning` and `SinceIsLast`, speaks of overrides that end after they start: other windows cover nothing and are no part of a tiling, so neighbours and `since` say something else there.  The kit's `equip(at, at + dur)` takes its duration unchecked (mascot.js:907-910, 979, 1007), so a film script with one below -0.26 seconds does reverse its override.
- StateTrackSpec.StateMeaning: is one-way for a whole track: whether a reversed override that shows the state right before its start spoils an answer depends on which windows with that state end exactly there after all cuts; the exact statement is per override (`SafeOverride`).
- TrackSpec.CallOrderFree: moments shared only by ramps are not covered, and calls at one moment with different targets, something starting before they are over, may still agree: whether the orders give one value is then whether two arbitrary easing curves coincide up to that start, which no condition on the calls short of that equality decides.
- BundleSpec.ReportsWhatIsLeft: does not speak of bundles whose regions are not found again: there the check reads a payload, or the rest of the document, as markup, and what it reports depends on the text exposed.  `RescanExact` is the exact condition for finding them again.
- The cosine: `TrackSpec.SineEasing` takes any function with its values at 0 and at half its period.
- Clip generation, the Studio panel, IndexedDB, local storage and the network.
- Floating point in timelines, profile and compositing: reals are used.
- Locomotion segments (`locoAt`, `cut`, `addSeg`), hops and carts: only the walk's profile and cues are modelled.
- Parsing of colours and gradients: an element's image comes as layers of stops, or as unreadable.
- The luminance curve and the contrast ratio: the compositing proofs do not need them.
- Computed `display` in `DeckAudit.Run`: whether a slide has no layout is an input.
- FLIP animation, lazy thumbnails and the scroll position of the rail.
