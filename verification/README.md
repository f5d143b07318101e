# Nexucon backend: a verified model

This project models the logic of the Nexucon construction-quality backend that does not
depend on its web framework, and proves properties of it. Rows of database tables are
records in sequences or maps, each service method is one step, and network answers, clocks,
digests, random codes and the database's refusal of a later row are inputs.
`dafny verify dfyconfig.toml` checks it all.

- **Canonical hashing** (`CanonicalJson`, `CanonicalRoundTrip`, `CanonicalMeaning`,
  `HashChain`, `PacketLogs`): the canonical JSON printer, a reader written independently of
  it (sections 2 to 7 of RFC 8259), what payloads mean, and the hash chain. Tamper evidence
  is a reduction: a change that keeps the head yields two strings with one digest.
- **TOTP secrets** (`Base32`, `Totp`): base32 per section 6 of RFC 4648 as a change of base,
  stripped and restored padding, and code verification.
- **AI providers** (`Failover`, `Retry`, `ChainBudget`, `Binary64`, `BoundingBoxes`,
  `Ensemble`): provider order, failover with a deadline, the four retry loops, the in-place
  box normaliser with every operation rounded, and the merge of the parallel ensemble.
- **BIM milestones** (`VersionLabels`, `Bim`, `BimInvariants`, `BimPayloads`, `Timeline`):
  versions, gates and stamps over every run, and the schedule simulation.
- **Regulatory workflows** (`Compliance`, `Approvals`, `ComplianceGate`, `Applications`,
  `ApplicationInvariants`, `ApplicationProgress`, `Percentages`, `DocumentRequests`): reports,
  decision logs, permits and document requests, alone and across services.
- **One-time codes** (`OneTimeCodes`, `OneTimeCodeInvariants`, `OneTimeCodeAccounts`): one
  token table behind registration, verification, resend and reset.
- **Audit diff and schema aliases** (`AuditDiff`, `SchemaAliases`).

Code that changes state is a class whose methods are proved against functions of the old
state; what holds over runs is proved about those functions. `Text` holds strings as code
points, their order, numerals and ASCII helpers.

## Where the code falls short of its promise

Each is proved with its exact condition or a concrete input.

- A telemetry packet numbered below one already received is accepted, and the honest log no
  longer verifies (`PacketLogs.LateAppendBreaksTheChain`).
- TOTP codes are not single-use. The login view marks the step on the row it loaded and
  never saves it, so an accepted code is accepted again whenever some step within one of the
  current one generates it, which its own step does for ninety seconds
  (`Totp.EveryCodeIsReplayable`). The mark would not be enough if it were stored: a code
  taken one step ahead of the clock stays good (`Totp.SingleUseExactly`).
- A box narrower than 0.06 is widened around its centre, but the rounded extent can come out
  below 0.06 again and the box is then moved to the image edge. From 0.29 to 0.31 becomes
  from 0 to 0.06 (`BoundingBoxes.InteriorSliverMovesToTheEdge`); the original is enclosed
  exactly when that branch is not taken or is taken at the edge
  (`BoundingBoxes.BoxEnclosesExactly`).
- `create_version` retires a model's versions before the new row is known to be acceptable,
  and nothing is rolled back. A count of added elements that is not a number, or a null
  label, leaves the model with no current version
  (`BimInvariants.RefusedRowLeavesNoCurrentVersion`); it has one exactly when the last call
  that retired its versions also stored the new one
  (`BimInvariants.HasCurrentVersionExactly`).
- A milestone pinned to another model's version can stay verified without its version gate
  (`BimInvariants.ForeignPinCanLoseItsGate`, `BimInvariants.PinSurvivesExactly`).
- `create_version` computes the default label even when a label is given, so a model given a
  label such as "Rev A" can never be versioned again (`BimInvariants.RevisionAFreezes`,
  `BimInvariants.FreezesExactly`, `BimInvariants.NonNumericLabelFreezesTheModel`).
- A BIM milestone pending review is reported further along than planned
  (`Timeline.BimRowAheadExactly`).
- Approval calls save the request before they log the decision. A revision asked for with
  null notes is refused after the save, so the status changes and the log says nothing
  (`Approvals.RefusedRevisionGoesUnlogged`); `Approvals.ServiceRunIsToldExactly` says exactly
  when the log tells the status, and the next logged decision repairs it
  (`Approvals.NextDecisionTells`).
- A deviation is saved before its report is filed. When the report is refused, as a milestone
  name too long for the report's title makes it, a deviation above 20 mm blocks no gate
  (`ComplianceGate.StepBlocksExactly`).
- `escalate_request` sets a target authority level that its own `save` overwrites, unless
  the amount demands that level anyway (`Approvals.TargetSurvivesExactly`).
- Rejecting an application withdraws nothing: one that was conditionally approved keeps its
  permit, and renewing the permit makes the application RENEWED though it was never approved
  (`ApplicationInvariants.RejectedApplicationIsRenewed`,
  `ApplicationInvariants.RejectedKeepsPermitExactly`).
- Approval does not consult the compliance gate (`ComplianceGate.ApprovalIgnoresTheGate`).
- Verified names that were never requested count towards a document request. One such name
  can complete a request while a requested document is still pending
  (`DocumentRequests.UnverifiedItemIsReportedComplete`,
  `DocumentRequests.UnrequestedItemCompletesExactly`) or push it beyond 100 per cent
  (`DocumentRequests.UnrequestedItemOvershootsExactly`); `DocumentRequests.ProgressOverEveryRun`
  gives the exact condition on every run. An item requested twice keeps a request below 100
  for ever (`DocumentRequests.RepeatedItemNeverCompletes`).
- Progress is rounded before it is truncated, so 29 of 50 documents count as 57 per cent
  (`Percentages.TwentyNineOfFifty`). It is the floor or one less, and completion is not
  affected (`Percentages.FloorOrOneLess`, `Percentages.ThresholdsAreExact`).
- The audit diff compares values as Python does, so a change from `true` to 1 is not recorded
  (`AuditDiff.BooleanForNumberGoesUnrecorded`).
- `generate_token` matches the address before trimming it, so an untrimmed address can leave
  two live tokens (`OneTimeCodeInvariants.UntrimmedIssueExactly`).

Two hazards are not failures today.

- The decision log cannot tell a conditional approval under the role "Authorized Signatory"
  from a partial signature (`Approvals.StepKeepsLog`). Accounts have no role, so no call
  records that one; the log would become ambiguous with accounts that carry it
  (`Approvals.AmbiguousCallExactly`).
- Because non-ASCII text is escaped as UTF-16 units, a string holding a high surrogate code
  point just before a low one renders like the code point they encode
  (`CanonicalMeaning.SplitPairCollides`). A JSON reader never returns such a string
  (`CanonicalMeaning.ReadTextsExactly`), and everything hashed was read from JSON or from
  database text; a payload built otherwise could collide.

## Model

| member | source | states |
|---|---|---|
| `CanonicalRoundTrip.CanonicalReads` | common/hashing.py:16-23 | an independent reader applied to the rendering of any payload returns that payload with keys in order and split surrogate pairs joined |
| `CanonicalMeaning.RoundTripExactly` | common/hashing.py:16-23 | the rendering reads back to exactly the payload if and only if no string or key in it holds a split surrogate pair |
| `CanonicalMeaning.SameRenderingExactly` | common/hashing.py:16-23 | any two payloads render alike if and only if a reader sees the same value in both |
| `CanonicalMeaning.EqualContentRendersAlike` | common/hashing.py:17-22 | equal content yields an identical string whatever the insertion order of keys, at every depth |
| `CanonicalMeaning.JsonRenderingDecidesContent` | common/hashing.py:16-23 | for any two payloads read from JSON, equal rendering if and only if equal content (objects as maps) |
| `CanonicalMeaning.RenderingDecidesContent` | common/hashing.py:16-23 | the same for any payloads without split surrogate pairs, wherever they come from |
| `CanonicalMeaning.ReadTextsExactly` | common/hashing.py:23 | the strings a JSON reader can return, the joins of UTF-16 units, are exactly those without a split pair |
| `CanonicalMeaning.ReaderReturnsClean` | common/hashing.py:23 | whatever text the reader accepts, every string and key it returns is such a join |
| `CanonicalMeaning.SplitPairCollides` | common/hashing.py:23 | a two-code-point string and the single code point it encodes are different content rendered alike |
| `CanonicalMeaning.UnitsSurvive` | common/hashing.py:23 | joining surrogates and re-escaping gives back every UTF-16 unit sequence |
| `CanonicalMeaning.OrderIsUnique` | common/hashing.py:19-23 | two payloads in key order with the same content are the same payload: the canonical form is unique |
| `CanonicalMeaning.SortSorts` | common/hashing.py:23 | sorting keys puts every object's keys in strictly ascending order by code point and keeps the content |
| `Text.LessExactly` | common/hashing.py:23 | one string stands before another if and only if it is a proper prefix of it or has the smaller code point where they first differ |
| `CanonicalRoundTrip.UnitReads` | common/hashing.py:23 | every escape sequence written for a UTF-16 unit reads back to that unit, whatever follows it |
| `CanonicalRoundTrip.ShortestIsWritten` | common/hashing.py:23 | no other text the reader takes for that unit is as short as the one written |
| `CanonicalRoundTrip.TwoRenderings` | common/hashing.py:23 | two payloads and their renderings, character by character |
| `HashChain.FrameDecodes` | common/hashing.py:52 | a frame determines the previous hash, the sequence number and the rendered payload |
| `HashChain.FrameReads` | common/hashing.py:52 | cut at its first two colons a frame is the previous hash, the number in decimal and the rendering, in that order |
| `HashChain.HeadFoldsChainHash` | common/hashing.py:44-52 | the chain head is chain_hash of the previous head, the position and the payload |
| `HashChain.TamperingYieldsCollision` | common/hashing.py:44-51 | two different chains with the same head yield two computed strings that differ and have the same digest; no assumption on SHA-256 beyond its output format |
| `HashChain.DifferentPacketsYieldCollision` | common/hashing.py:44-51 | the same for lists of payloads read from JSON and numbered by position, whose length or content differs |
| `HashChain.HexDigestIsDigest` | common/hashing.py:26-28 | the hexadecimal rendering of every 32-byte digest has the format assumed of SHA-256, and distinct digests stay distinct |
| `PacketLogs.PacketLog.Append` | apps/telemetry/services.py:165-214 | each of the five refusals, a null payload and an unreadable number among them, happens in exactly its case and leaves the log alone; otherwise the row, numbered next by default, names the highest-numbered row as predecessor |
| `PacketLogs.PacketLog.VerifyChain` | apps/telemetry/models.py:213-229 | true if and only if every stored hash is the head of the links up to its row |
| `PacketLogs.VerifiedLogsAgree` | apps/telemetry/models.py:216-219 | two logs that verify and end in the same hash hold the same packets, or a collision is computed from them |
| `PacketLogs.InOrderAppendStaysIntact` | apps/telemetry/services.py:192-210 | appending above every received number keeps the log verifiable |
| `PacketLogs.AppendedIsSound` | apps/telemetry/services.py:192-210 | a log built by appending payloads in order verifies, numbers them from 1 and links every row to the hash of the one before, the first to the empty string |
| `PacketLogs.LateAppendBreaksTheChain` | apps/telemetry/services.py:184-210 | an honest log that still verified after accepting a lower number would give a collision, which is named |
| `Base32.SecretRoundTrip` | apps/accounts/two_factor.py:23-30 | any byte string of any length survives encoding, stripping the padding and _decode_secret |
| `Base32.LowerCaseSecretRoundTrip` | apps/accounts/two_factor.py:28-30 | so it does when the secret is lower-cased |
| `Base32.UnpaddedSecretDecodesExactly` | apps/accounts/two_factor.py:28-30 | an unpadded secret decodes if and only if its letters are base32 in either case and its length modulo 8 is not 1, 3 or 6 |
| `Base32.SecretsAreDistinct` | apps/accounts/two_factor.py:23-25 | different byte strings never share a secret |
| `Base32.GeneratedSecretHas32Letters` | apps/accounts/two_factor.py:23-25 | a 160-bit secret is 32 letters with no padding |
| `Base32.GroupRoundTrip` | apps/accounts/two_factor.py:23-30 | one to five bytes: the digits kept by the encoding determine the bytes |
| `Base32.GroupSpellsItsNumber` | apps/accounts/two_factor.py:23-30 | a group of bytes and its letters spell the same number, most significant first, with zero bits for what is missing |
| `Base32.AlphabetIsStandard` | apps/accounts/two_factor.py:25 | the letters are those of table 3 of RFC 4648 |
| `Totp.CodeIsWellFormed` | apps/accounts/two_factor.py:33-40 | a code has exactly the requested number of digits and names the truncated value modulo that power of ten |
| `Totp.TruncationIsLow31Bits` | apps/accounts/two_factor.py:33-40 | the truncated value is the low 31 bits of the four bytes at the offset, most significant first (section 5.3 of RFC 4226) |
| `Totp.VerifyCode` | apps/accounts/two_factor.py:50-65 | accepts if and only if the code is well formed and some unused step within one of the current generates it; fails if and only if a well-formed code would be tried at a negative step |
| `Totp.TriesNegativeStepExactly` | apps/accounts/two_factor.py:58-64 | a negative step is tried only before the thirtieth second of the epoch, and unless the last such step is marked as used |
| `Totp.TwoFactor.Login` | apps/accounts/views.py:48-59 | the login answers as verification does and leaves the stored mark where it was |
| `Totp.LoginAll` | apps/accounts/views.py:48-59 | over any sequence of logins every reply is given by the mark stored before the first |
| `Totp.LoginAcceptsExactly` | apps/accounts/views.py:48-59 | with nothing stored, from the thirtieth second of the epoch on, a code is accepted if and only if the time lies in the ninety seconds around a step that generates it |
| `Totp.EveryCodeIsReplayable` | apps/accounts/views.py:57-59 | an accepted code is accepted again if and only if some step within one of the then current one generates it |
| `Totp.SingleUseExactly` | apps/accounts/two_factor.py:50-65 | were the current step stored as used, a code accepted before would be accepted again in that step if and only if it is also the next step's code |
| `Failover.ProviderOrder` | apps/common/ai_service.py:367-396 | the order is duplicate-free, holds exactly the capable keyed candidates, by first occurrence, configured provider first |
| `Failover.ProviderOrderIsUnique` | apps/common/ai_service.py:108-110 | those properties determine the order: it depends on nothing else |
| `Failover.OrderFollowsPreference` | apps/common/ai_service.py:367-396 | of any two providers in the order the earlier is the configured one, or is listed before the other in the override, or, neither being listed, precedes it in the code's own order |
| `Failover.OrderIsComplete` | apps/common/ai_service.py:367-396 | every keyed capable provider is in the order, whatever the override list |
| `Failover.ShippedOrders` | apps/common/ai_service.py:112-150 | with the shipped tables the order holds exactly the keyed ones of openai, gemini, anthropic and, except for vision, deepseek |
| `Failover.WithFailover` | apps/common/ai_service.py:412-485 | the trace satisfies the failover contract: ending, attempts recorded and providers started |
| `Failover.TraceFollowsOrder` | apps/common/ai_service.py:450-476 | providers are started in order, each at most once; recorded attempts are a prefix of the order, list every provider before the winner, and carry the error of each that failed and the skip notice of the one found too late |
| `Failover.FirstSuccessWins` | apps/common/ai_service.py:450-476 | the first provider that succeeds is returned if and only if there is no deadline or every start up to it is by the deadline |
| `Failover.FailoverIsDeterministic` | apps/common/ai_service.py:412-485 | outcomes, deadline and clock determine the whole trace |
| `Failover.ChainEndsInTime` | apps/common/ai_service.py:286-296 | no provider starts after the deadline, so the call ends within the deadline plus one provider's budget |
| `ChainBudget.ChainEndsWithinBudget` | apps/common/ai_service.py:286-296 | failover over retry loops ends within D + (R + 1) T + C R |
| `Retry.GenerateWithOpenAI` | apps/common/ai_service.py:580-621 | the run follows the OpenAI classification of any script of replies |
| `Retry.GenerateWithDeepSeek` | apps/common/ai_service.py:639-678 | the same for DeepSeek |
| `Retry.GenerateWithGemini` | apps/common/ai_service.py:734-757 | the same for Gemini |
| `Retry.GenerateWithAnthropic` | apps/common/ai_service.py:815-861 | the same for Anthropic over HTTP |
| `Retry.ProviderCaps` | apps/common/ai_service.py:580-861 | waits are at least one second and at most 60, or 120 for Gemini |
| `Retry.RetryStaysWithinBudget` | apps/common/ai_service.py:580-861 | at most R + 1 requests and cap times R seconds of sleep, for every script; a negative R sends nothing |
| `Retry.NothingFollowsAFinalReply` | apps/common/ai_service.py:580-861 | nothing is sent after a permanent failure or an answer |
| `Retry.AnswersExactly` | apps/common/ai_service.py:580-861 | the loop answers if and only if the budget reaches an answer preceded only by transient failures |
| `Retry.RetryIsDeterministic` | apps/common/ai_service.py:580-861 | the replies determine the run |
| `Retry.SendsAgainExactly` | apps/common/ai_service.py:580-861 | another request follows if and only if the budget allows it and every reply so far was transient |
| `Retry.OpenAISendsAgainExactly` | apps/common/ai_service.py:580-621 | for OpenAI transient means a rate limit whose text names no exhausted quota |
| `Retry.DeepSeekSendsAgainExactly` | apps/common/ai_service.py:639-678 | for DeepSeek a rate limit or a status of 429 or from 500 up, unless the balance is exhausted |
| `Retry.GeminiSendsAgainExactly` | apps/common/ai_service.py:685-757 | for Gemini a text naming a rate limit and neither a daily quota nor, without a delay, a permanent failure |
| `Retry.AnthropicSendsAgainExactly` | apps/common/ai_service.py:815-861 | for Anthropic a status of 429 or from 500 up |
| `Retry.AnthropicEndsExactly` | apps/common/ai_service.py:815-861 | the ending is told by the status and body of the last reply |
| `Retry.SdkLoopsEndExactly` | apps/common/ai_service.py:580-757 | so it is for the other three by the kind of the last reply |
| `Retry.WaitsFollowHints` | apps/common/ai_service.py:580-861 | over a run every wait is the delay named plus a second, or the default, kept between one second and the cap |
| `Retry.DeepSeekWaits` | apps/common/ai_service.py:639-678 | over a run DeepSeek's waits start at one second and double up to sixty |
| `Retry.RetryTakesAtMostItsBudget` | apps/common/ai_service.py:286-296 | with requests bounded by T, a loop takes at most (R + 1) T + cap R |
| `Binary64.RoundIsRounding` | apps/common/ai_service.py:934-956 | rounding to nearest binary64, ties to even, is monotone and idempotent, fixes 0, 1 and 2 and errs by at most half a unit in the last place of 1 |
| `BoundingBoxes.NormaliseBoxes` | apps/common/ai_service.py:894-957 | in place, under any rounding: every item becomes its normal form, other items untouched; the size is looked up once if some box is in pixels, else never |
| `BoundingBoxes.SurvivingBoxIsSound` | apps/common/ai_service.py:934-956 | whatever the rounding, a normalised box lies in [0, 1], is ordered and has both rounded extents at least 0.06 |
| `BoundingBoxes.BoxEnclosesExactly` | apps/common/ai_service.py:940-956 | up to six rounding errors a normalised box encloses the clamped original if and only if on each axis it was not moved to the edge or already lay in that strip |
| `BoundingBoxes.ExactBoxEncloses` | apps/common/ai_service.py:940-956 | in exact arithmetic the clamped original is always enclosed |
| `BoundingBoxes.InteriorSliverMovesToTheEdge` | apps/common/ai_service.py:942-948 | in binary64 the sliver from 0.29 to 0.31 becomes the one from 0 to 0.06 |
| `BoundingBoxes.RoundedConstants` | apps/common/ai_service.py:941-948 | binary64 rounding and its value of 0.06 meet every hypothesis of these results |
| `BoundingBoxes.SoundBoxIsUnchanged` | apps/common/ai_service.py:921-956 | a box already ordered, inside and wide enough is left as it is |
| `BoundingBoxes.NormalisingTwiceIsOnce` | apps/common/ai_service.py:894-957 | a second pass changes nothing and looks nothing up, whatever the image size |
| `BoundingBoxes.SwappedEdgesAreRepaired` | apps/common/ai_service.py:934-937 | swapping a minimum with its maximum changes nothing |
| `BoundingBoxes.PixelBoxBecomesFractions` | apps/common/ai_service.py:921-933 | the corners of a pixel box inside the image become exactly their rounded fractions |
| `BoundingBoxes.FractionsAreKept` | apps/common/ai_service.py:921-939 | a box with no coordinate above 1, or of an image of unknown size, keeps its coordinates, ordered and clamped |
| `Ensemble.Merge` | apps/common/ai_service.py:1314-1341 | for any completion order the result is a merge: responders, failure reasons, observations trimmed, duplicate-free and traced to a responder |
| `Ensemble.CompletionOrderDoesNotMatter` | apps/common/ai_service.py:1318-1341 | any two completion orders give the same responders, the same failures and the same observations |
| `Ensemble.ProvidersArePartitioned` | apps/common/ai_service.py:1302-1330 | responding and failed providers partition the providers asked |
| `Compliance.ComplianceService.CreateNcr` | apps/compliance/services.py:148-204 | an unknown project is refused and changes nothing; otherwise the report is added with one corrective action, or alone when the action is refused |
| `Compliance.ComplianceService.EscalateNcr` | apps/compliance/services.py:207-243 | the level rises by one up to five or to the target; level four and above makes the report critical |
| `Compliance.RepeatedEscalation` | apps/compliance/services.py:207-220 | escalated n times over, a new report stands at level 1 + n up to five, and is critical from the third time on |
| `Compliance.TargetedEscalation` | apps/compliance/services.py:207-220 | an escalation to a given level stores that level |
| `Compliance.ComplianceService.CloseNcr` | apps/compliance/services.py:246-276 | the report is closed with exactly its own open corrective actions |
| `Compliance.BlockingCountIsPositiveExactly` | apps/approvals/services.py:171-176 | the gate's count is positive if and only if some report on the project is open and critical or major |
| `Bim.BimService.UploadModel` | apps/bim/services.py:29-73 | the model and its only version v1.0 are added |
| `Bim.BimService.CreateVersion` | apps/bim/services.py:76-120 | fails changing nothing if and only if `float` cannot read the current label without its "v"; fails with the versions retired if and only if it gets past that and the new row is refused; otherwise also adds the new version and reopens the verified milestones |
| `Bim.BimService.StampAndCertify` | apps/bim/services.py:123-142 | the model is certified and Approved, nothing else changes |
| `Bim.BimService.RequestChanges` | apps/bim/services.py:145-167 | the model is Changes Requested and keeps its seal |
| `Bim.BimService.CreateMilestone` | apps/bim/services.py:442-504 | refused for an unknown model; otherwise the milestone is added, pinned to the version given or the model's current one |
| `Bim.BimService.EvaluateGates` | apps/bim/services.py:507-584 | no blockers if and only if all six gates pass |
| `Bim.BimService.VerifyAndStamp` | apps/bim/services.py:587-619 | succeeds if and only if all gates pass, and then only stamps that milestone |
| `Bim.BimService.FlagDeviation` | apps/bim/services.py:622-663 | records the deviation and, above 20 mm and unless the report is refused, exactly one open report, critical above 35 mm |
| `Bim.BimService.RequestReVerification` | apps/bim/services.py:666-679 | withdraws the stamp of that milestone only |
| `BimInvariants.StepKeepsInv` | apps/bim/services.py:29-679 | every service call, those failing half-way included, keeps the invariant |
| `BimInvariants.RunKeepsInv` | apps/bim/services.py:29-679 | over every run each model has at most one current version, labelled as the model says, and every verified milestone pinned to its own model is stamped and passes every gate but approval |
| `BimInvariants.HasCurrentVersionExactly` | apps/bim/services.py:76-103 | over every run a model has exactly one current version if and only if the last call that retired its versions also stored the new one |
| `BimInvariants.AcceptedRunsKeepOneCurrent` | apps/bim/services.py:29-120 | so each model has exactly one over every run whose version rows are all accepted |
| `BimInvariants.RefusedRowLeavesNoCurrentVersion` | apps/bim/services.py:81-96 | one refused version row leaves a model without a current version |
| `BimInvariants.VerifiedMilestoneIsClear` | apps/bim/services.py:507-619 | at every point of every run a verified milestone pinned to its own model has a stamp, the label in force, no open critical clash, a deviation within tolerance, no failed or pending inspection and cleared ground |
| `BimPayloads.CreatedThenVerified` | apps/bim/services.py:442-619 | at every point after its creation a milestone is verified only if the payload it was created from has no open critical clash, no failed or pending inspection and cleared ground, and its last deviation is within the payload's tolerance |
| `BimPayloads.CreatedIsStampedExactly` | apps/bim/services.py:507-619 | and at every such point a call stamps it if and only if all that holds, the model is certified and approved, and the pin is in force |
| `BimPayloads.RunKeepsPayload` | apps/bim/services.py:442-679 | over every run the payload and the pin of a milestone stay, and its deviation is the last one flagged |
| `BimPayloads.PinIsTheOneGiven` | apps/bim/services.py:452-457 | a milestone holds its payload and is pinned to the version given, when there is one, else to the current one |
| `BimInvariants.NoStampUntilCertifiedAgain` | apps/bim/services.py:123-167 | from a request for changes until the model is certified again no run stamps any of its milestones: those verified at the end were verified before, with the same stamp |
| `BimInvariants.DefaultPinIsTheCurrentVersion` | apps/bim/services.py:452-457 | a milestone created without a known version is pinned if and only if its model has a current version, and then to that one |
| `BimInvariants.PinSurvivesExactly` | apps/bim/services.py:81-103 | a new version of another model keeps a milestone's version gate if and only if the pin is not a version of that model or its label is the milestone model's current one |
| `BimInvariants.ForeignPinCanLoseItsGate` | apps/bim/services.py:452-457 | a run of accepted calls from empty tables reaches a verified milestone with every gate open that loses its version gate to another model's next version and stays verified |
| `BimInvariants.FreezesExactly` | apps/bim/services.py:78 | a call freezes a model that can be versioned if and only if it stores a version of it under a label `float` cannot read |
| `BimInvariants.NonNumericLabelFreezesTheModel` | apps/bim/services.py:78 | once a current label cannot be read no run ever versions that model again |
| `BimInvariants.RevisionAFreezes` | apps/bim/services.py:78 | a version labelled "Rev A" freezes its model for good |
| `VersionLabels.ExponentExactly` | apps/bim/services.py:78 | after digits an exponent is read if and only if digits follow its letter and at most one sign |
| `VersionLabels.PointExactly` | apps/bim/services.py:78 | a point is read if and only if digits stand before or after it |
| `VersionLabels.NumberedLabels` | apps/bim/services.py:78 | a whole number, or two with a point between, with or without a leading "v", is always a readable label |
| `BimInvariants.NumericLabelsNeverFreeze` | apps/bim/services.py:78 | over every run without such a label each model can always be versioned |
| `Timeline.Simulate` | apps/bim/services.py:313-418 | rows per milestone; behind schedule if and only if some milestone is delayed, never ahead, variance minus the largest delay |
| `Timeline.MaxIsLargest` | apps/bim/services.py:338 | the reported delay is the largest per-milestone delay |
| `Timeline.SiteRowIsBounded` | apps/bim/services.py:331-353 | for progress in 0..100 a site row has actual <= planned <= 100, planned ahead by 12 when delayed or 5 otherwise as far as 100 allows, and a delay within the maximum |
| `Timeline.CompletedWithinTotal` | apps/bim/services.py:389-390 | with progress in 0..100, completed elements lie between 0 and the total |
| `Timeline.CompletedAtTheEnds` | apps/bim/services.py:389-390 | full progress counts every element, none counts none |
| `Approvals.CreateRequest` | apps/approvals/services.py:44-87 | an unknown project is refused; otherwise a request with the gate and counts given and an empty log |
| `Approvals.ApprovalRequest.AssignReviewer` | apps/approvals/services.py:137-144 | only a Pending request moves, to In Review |
| `Approvals.ApprovalRequest.ApproveRequest` | apps/approvals/services.py:258-284 | status and logged outcome agree, conditional or not; when the log row is refused the saved request stays |
| `Approvals.ApprovalRequest.RejectRequest` | apps/approvals/services.py:314-331 | status and logged outcome are Rejected; when the log row is refused the saved request stays |
| `Approvals.ApprovalRequest.RequestRevision` | apps/approvals/services.py:197-222 | Awaiting Fix, logged as returned for information; when the log row is refused the saved request stays |
| `Approvals.ApprovalRequest.RequestInfo` | apps/approvals/services.py:356-372 | Awaiting Fix, logged as returned for information; when the log row is refused the saved request stays |
| `Approvals.ApprovalRequest.EscalateRequest` | apps/approvals/services.py:383-401 | Escalated; the target level set before saving is not what is stored; when the log row is refused the saved request stays |
| `Approvals.ApprovalRequest.SignDocument` | apps/approvals/services.py:413-435 | one more signature up to the number required, approving when complete; when the log row is refused the saved request stays |
| `Approvals.ApprovalRequest.EvaluateComplianceGate` | apps/approvals/services.py:166-192 | passes if and only if no blocking report is on the project; only the gate changes |
| `Approvals.StepKeepsLog` | apps/approvals/services.py:137-435 | every operation keeps the log telling the status, except a conditional approval under the signatory role, which does if and only if the log already says Conditional |
| `Approvals.LogReplaysStatus` | apps/approvals/services.py:137-435 | over every run of completed calls without such an approval the status is replayed from the log |
| `Approvals.LogTellsExactly` | apps/approvals/services.py:137-435 | over every run, refused log rows included, the log tells the status if and only if no status has been saved unlogged since the last logged decision, or the last one saved is the status that decision stands for |
| `Approvals.NextDecisionTells` | apps/approvals/services.py:197-435 | whatever went before, the next logged decision makes the log tell the status |
| `Approvals.ServiceRunIsToldExactly` | apps/approvals/services.py:137-435 | the same for a request created Pending with the roles the code records, accounts having none: always when every call completes, and otherwise exactly under that condition |
| `Approvals.RefusedRevisionGoesUnlogged` | apps/approvals/services.py:197-223 | a revision whose comment is refused leaves the status changed and the log silent |
| `Approvals.AmbiguousCallExactly` | apps/approvals/services.py:268 | a call could leave the log ambiguous if and only if it is a conditional approval by an account whose role is the signatory's |
| `Approvals.SignatureCountExactly` | apps/approvals/services.py:413-419 | over any run the count is the starting count plus the signatures, logged or not, capped at the number required |
| `Approvals.LastSignatureApproves` | apps/approvals/services.py:413-435 | a request created Pending that needs n signatures is Pending until the n-th and Approved with it |
| `Approvals.CompletingSignatureApproves` | apps/approvals/services.py:413-435 | the last required signature approves, in the status and in the log |
| `Approvals.AuthorityFollowsAmount` | apps/approvals/models.py:116-124 | the stored authority level always follows the amount, escalation included |
| `Approvals.TargetSurvivesExactly` | apps/approvals/services.py:383-387 | at every point after an escalation the stored level is the target asked for if and only if the amount demands it |
| `Approvals.LogOnlyGrows` | apps/approvals/models.py:127-130 | decisions are only ever appended |
| `ComplianceGate.GateBlocksExactly` | apps/approvals/services.py:166-192 | the gate blocks if and only if some report on the project is blocking |
| `ComplianceGate.StepKeepsBlock` | apps/compliance/services.py:207-276 | a blocking report stays blocking under a service call if and only if the call is not its own closure |
| `ComplianceGate.FlaggedDeviationBlocksEveryGate` | apps/bim/services.py:644-654 | after a deviation above 20 mm is flagged and its report filed every gate on the project evaluates to Blocked at every point of every run until that report is closed |
| `ComplianceGate.ClosingTheLastBlockOpensTheGate` | apps/compliance/services.py:246-251 | closing a report opens the gate if and only if it was the only blocking one |
| `ComplianceGate.StepBlocksExactly` | apps/compliance/services.py:148-243 | a call blocks an open project if and only if it files the report of a deviation above 20 mm there, files an open critical or major report or escalates an open one to level four |
| `ComplianceGate.SmallDeviationsKeepTheGateOpen` | apps/bim/services.py:644-645 | over every run without such filings and escalations, deviations of 20 mm or less leave every gate of an open project passing |
| `ComplianceGate.ApprovalIgnoresTheGate` | apps/approvals/services.py:258-265 | no approval operation reads or clears the gate: a blocked request can be approved |
| `ComplianceGate.RequestFollowsItsOwnCalls` | apps/approvals/services.py:137-435 | in the shared tables a request goes exactly the way its own calls take it, whatever calls of any service come between; only its gate may differ |
| `ComplianceGate.ClosingAReportClosesItsActions` | apps/compliance/services.py:253-258 | after a report is closed its corrective actions stay closed over every run |
| `Applications.ApplicationService.CreateApplication` | apps/applications/services.py:26-84 | refused without an authenticated applicant or a known project, else submitted |
| `Applications.ApplicationService.TransitionStatus` | apps/applications/services.py:87-185 | succeeds if and only if the table allows the move; approval activates project and permit, conditional approval issues a permit |
| `ApplicationProgress.TransitionMovesExactly` | apps/applications/services.py:91-106 | a transition moves an application if and only if it stands in one of the statuses listed for the target; APPROVED is entered from the four after review |
| `ApplicationProgress.ApprovalTakesExactly` | apps/applications/services.py:91-106 | from whatever status a run has brought it to, rejected and expired included, an application can be approved in the stated number of calls and in no fewer |
| `Applications.ApplicationService.AssignReviewer` | apps/applications/services.py:188-206 | only a submitted application moves, to under review |
| `Applications.ApplicationService.RenewPermit` | apps/permits/services.py:23-54 | only an active or expired permit is renewed; its application becomes renewed |
| `Applications.ApplicationService.SuspendPermit` | apps/permits/services.py:75-88 | only that permit is suspended |
| `Applications.ApplicationService.RevokePermit` | apps/permits/services.py:91-104 | only that permit is revoked |
| `ApplicationInvariants.StepKeepsInv` | apps/applications/services.py:26-206 | every service call keeps the invariant |
| `ApplicationInvariants.LicensedHaveExactlyOnePermit` | apps/applications/services.py:136-175 | over every run an approved, conditionally approved, expired or renewed application has exactly one permit, and an approved one's project is active |
| `ApplicationInvariants.ApprovedIsInForce` | apps/applications/services.py:137-159 | over every run from empty tables that suspends and revokes nothing every approved application has one permit, active, on an active project |
| `ApplicationInvariants.LicensedIsActiveExactly` | apps/permits/services.py:23-104 | over every run from empty tables the permit of an approved, conditionally approved, expired or renewed application is active if and only if it was not suspended or revoked since the last approval |
| `ApplicationInvariants.ApprovalPutsInForce` | apps/applications/services.py:137-159 | entering APPROVED puts project and permit in force, even a permit suspended or revoked before |
| `ApplicationInvariants.StepKeepsInForce` | apps/permits/services.py:23-104 | in force survives a call if and only if it does not suspend or revoke that permit |
| `ApplicationInvariants.InForceLasts` | apps/applications/services.py:137-159 | and so over every run without such a call |
| `ApplicationInvariants.StepKeepsWithdrawn` | apps/permits/services.py:23-104 | a suspended or revoked permit comes back into force under a call if and only if the call approves its application |
| `ApplicationInvariants.PermitIssuedExactly` | apps/applications/services.py:137-175 | over every run an application holds a permit if and only if it was ever approved, conditionally or not |
| `ApplicationInvariants.RejectedKeepsPermitExactly` | apps/permits/services.py:23-54 | over every run a rejected application has an active permit, and can be made RENEWED, if and only if it was ever approved, conditionally or not, and the permit is not suspended or revoked |
| `ApplicationInvariants.RejectedApplicationIsRenewed` | apps/permits/services.py:23-54 | a submitted, conditionally approved and rejected application is renewed without ever having been approved |
| `ApplicationInvariants.WithdrawalLasts` | apps/permits/services.py:75-104 | over every run that does not approve its application a withdrawn permit stays withdrawn |
| `ApplicationInvariants.EveryApprovalWasReviewed` | apps/applications/services.py:91-106 | every entry into APPROVED has an UNDER_REVIEW state after the latest SUBMITTED and after any earlier approval |
| `DocumentRequests.Application.RequestDocuments` | apps/applications/services.py:209-242 | one request is appended, numbered by position, every item pending |
| `DocumentRequests.Application.UpdateProgress` | apps/applications/services.py:245-291 | the first request with the id, if any, is updated and logged; nothing else changes |
| `DocumentRequests.IdsAreDistinct` | apps/applications/services.py:213 | zero-filled ids are injective |
| `DocumentRequests.UpdateTouchesOneRequest` | apps/applications/services.py:249-280 | over every run the first match is the only match and other requests are unchanged |
| `DocumentRequests.ProgressIsCompleteExactly` | apps/applications/services.py:258-264 | progress is 100 if and only if every requested item is verified and none was requested twice |
| `DocumentRequests.ProgressIsSoundOverRuns` | apps/applications/services.py:245-291 | over every run whose updates name requested items, progress is the floor of the percentage or one less, within 0..100, and 100 if and only if the items are distinct and all verified |
| `Percentages.ThresholdsAreExact` | apps/applications/services.py:262 | the rounded and truncated percentage reaches 100, and passes it, exactly when the exact one truncated does |
| `Percentages.FloorOrOneLess` | apps/applications/services.py:262 | up to 100 it is the floor of the exact percentage or one less |
| `Percentages.CodePercentIsPercentage` | apps/applications/services.py:262 | the code's percentage meets all that the results on document requests ask of one |
| `Percentages.TwentyNineOfFifty` | apps/applications/services.py:262 | 29 of 50 gives 57 |
| `DocumentRequests.LastVerifiedItemCompletes` | apps/applications/services.py:263-269 | verifying the last of distinct items completes the request unless overridden |
| `DocumentRequests.StatusFollowsItems` | apps/applications/services.py:258-280 | a marked request takes the override when one is given; otherwise it is completed at 100, in progress once an item is verified or submitted, and else keeps its status, which is logged |
| `DocumentRequests.RepeatedItemNeverCompletes` | apps/applications/services.py:259-262 | a request listing an item twice never reaches 100 |
| `DocumentRequests.TrackingSurvivesExactly` | apps/applications/services.py:254-262 | item statuses remain those of the requested items if and only if the update names one |
| `DocumentRequests.ProgressOverEveryRun` | apps/applications/services.py:245-291 | over every run, whatever the updates name, progress is below, at or beyond 100 according to whether verified names never requested make up for the shortfall of the requested ones, and by how much |
| `DocumentRequests.FalseCompletionExactly` | apps/applications/services.py:258-269 | over every run a request with an unverified item stands at 100 or more if and only if at least as many never-requested names are verified as it falls short |
| `DocumentRequests.UnrequestedItemOvershootsExactly` | apps/applications/services.py:254-264 | an update naming an item never requested pushes progress beyond 100 if and only if it marks it done, every item is verified and distinct, and there are at most a hundred |
| `DocumentRequests.UnrequestedItemCompletesExactly` | apps/applications/services.py:254-269 | it reports COMPLETED with an item unverified if and only if it marks it done, the items are distinct and just one is missing |
| `DocumentRequests.UnverifiedItemIsReportedComplete` | apps/applications/services.py:254-269 | two items requested, one verified and an unrequested name verified: COMPLETED at 100 with an item still pending |
| `OneTimeCodes.Accounts.GenerateToken` | apps/accounts/models.py:165-178 | pending tokens matching the address are used up and one is added |
| `OneTimeCodes.Accounts.Register` | apps/accounts/views.py:256-411 | a permitted, unverified address gets a fresh code |
| `OneTimeCodes.Accounts.VerifyEmail` | apps/accounts/views.py:447-501 | each reply in exactly its case; a mismatch is charged, a match spends the token |
| `OneTimeCodes.Accounts.ResendCode` | apps/accounts/views.py:559-597 | a new code for an unverified account, not within 30 seconds of the last |
| `OneTimeCodes.Accounts.RequestReset` | apps/accounts/views.py:729-787 | same answer for every address; a code only for an active account |
| `OneTimeCodes.Accounts.ConfirmReset` | apps/accounts/views.py:797-856 | accepted by link or by an unexpired live code; every pending token is then used up |
| `OneTimeCodeInvariants.IssuingKeepsInv` | apps/accounts/models.py:165-178 | issuing to a trimmed address leaves exactly the new token live |
| `OneTimeCodeInvariants.UntrimmedIssueExactly` | apps/accounts/models.py:168-174 | with an address that is not trimmed one live token is kept if and only if there was none before |
| `OneTimeCodeInvariants.RunKeepsInv` | apps/accounts/views.py:256-856 | over every run each address has at most one unused token |
| `OneTimeCodeInvariants.UsedStaysUsed` | apps/accounts/views.py:447-856 | a used token never becomes unused and is never accepted |
| `OneTimeCodeInvariants.AcceptedAtMostOnce` | apps/accounts/views.py:447-856 | across verification and reset together a token is accepted at most once |
| `OneTimeCodeInvariants.ChargesAreCounted` | apps/accounts/views.py:480-489 | over every run attempts count exactly the mismatches charged, at most five, for tokens present or yet to be issued |
| `OneTimeCodeInvariants.CodesAreSoundFromTheStart` | apps/accounts/views.py:256-856 | from empty tables on: one unused token per address, each token accepted at most once and charged at most five times |
| `OneTimeCodeInvariants.VerificationAcceptsExactly` | apps/accounts/models.py:160-162 | verification accepts if and only if the live token satisfies is_valid and the code matches |
| `OneTimeCodeAccounts.StepVerifiesExactly` | apps/accounts/views.py:480-501 | a call leaves an account verified if and only if it was before or the call accepts its code; no call changes an account's address or activity |
| `OneTimeCodeAccounts.VerifiedExactly` | apps/accounts/views.py:256-856 | over every run an account is verified if and only if it was at the start or a code of its own was accepted on the way |
| `OneTimeCodeAccounts.AcceptedTokenIsOwn` | apps/accounts/views.py:468-501 | the accepted code is that of a valid token of the same account |
| `OneTimeCodeAccounts.RegistrationThenCode` | apps/accounts/models.py:165-178 | a registration followed by its code is accepted for exactly fifteen minutes and then leaves the account verified |
| `OneTimeCodeAccounts.ResendThenCode` | apps/accounts/models.py:165-178 | so it is for a code sent again |
| `OneTimeCodeAccounts.ResetRequestThenCode` | apps/accounts/views.py:729-856 | a reset code changes the password for exactly an hour |
| `OneTimeCodeInvariants.ResetAcceptsExactly` | apps/accounts/views.py:829-839 | reset accepts a code if and only if the live token is unexpired and carries it, whatever its attempts |
| `OneTimeCodeAccounts.VerificationReplies` | apps/accounts/views.py:447-501 | a verification asks for address and code, then for an account, then for a live token, and then the expiry, the attempts and the code of that token decide the reply |
| `OneTimeCodeAccounts.ConfirmationReplies` | apps/accounts/views.py:797-856 | a password is changed if and only if it is acceptable, the account active, and the link valid or the code that of the unexpired live token |
| `OneTimeCodeInvariants.ResetUsesEverythingUp` | apps/accounts/views.py:850-851 | after a password change the account has no live token |
| `OneTimeCodeInvariants.ResendWaitsThirtySeconds` | apps/accounts/views.py:585-597 | after any code sent to an unverified account, a resend is refused for thirty seconds and then sends again |
| `AuditDiff.ComputeDiff` | apps/audit/services.py:136-151 | strictly ascending by field in code point order, exactly the keys whose values differ under Python's equality, with both values |
| `AuditDiff.EqualExactly` | apps/audit/services.py:146 | two values are equal if and only if they are the same value once every number, booleans among them, is written alike, at any depth |
| `AuditDiff.ExactValuesEqualExactly` | apps/audit/services.py:146 | without booleans and floats only identical values are equal |
| `AuditDiff.EqualIsTransitive` | apps/audit/services.py:146 | Python's equality is transitive; it is also reflexive and symmetric |
| `AuditDiff.DiffReconstructs` | apps/audit/services.py:136-151 | applying the diff to the previous state gives the new state up to that equality, absent and null identified |
| `AuditDiff.ExactStatesReconstruct` | apps/audit/services.py:136-151 | on states without booleans and floats the diff holds exactly the keys whose values are not the same, and applying it gives every new value back |
| `AuditDiff.DiffReverts` | apps/audit/services.py:136-151 | read backwards it gives the previous state up to that equality |
| `AuditDiff.DiffIsEmptyExactly` | apps/audit/services.py:161-162 | the diff is empty if and only if the states agree under that equality |
| `AuditDiff.BooleanForNumberGoesUnrecorded` | apps/audit/services.py:146 | a change from `true` to 1 is not recorded |
| `SchemaAliases.Schema.DropTrailingSlashAliases` | common/schema_hooks.py:28-60 | for every iteration order exactly the aliases are dropped and everything else is kept |
| `SchemaAliases.TwinSurvives` | common/schema_hooks.py:31-33 | every dropped path leaves its twin with the same methods |
| `SchemaAliases.KeptExactly` | common/schema_hooks.py:28-60 | a path is kept, as it is, unless it has no trailing slash and its twin documents the very same methods |
| `SchemaAliases.NoOperationIsLost` | common/schema_hooks.py:31-33 | no operation loses its last representative and none is gained |
| `SchemaAliases.PruningTwiceIsOnce` | common/schema_hooks.py:28-60 | a second pass finds nothing to drop |

## Left out

- HTTP, ORM, serialisers, permissions, e-mail, storage, notifications and audit writes: they do not affect the modelled state.
- Floats, non-string keys and `default=str` values in canonical JSON; the payloads are null, booleans, integers, strings, arrays and objects.
- The inside of SHA-1, SHA-256 and HMAC: parameters with a fixed output format.
- Upper- and lower-casing beyond ASCII, and Unicode digits and blanks: other characters are left as they are.
- TOTP steps beyond eight bytes, which the code would refuse to pack.
- IEEE rounding of schedule averages and times, which are exact here; overflow, NaN and infinite coordinates of boxes; document requests of more than 2^39 items.
- The text of error messages and the regular expressions that read a delay from one: the delay is an input of the reply.
- Splitting the provider override setting into names, model names and prompts; the label of the ensemble, which names the first two responders to finish.
- `BimInvariants.RunKeepsInv`: says nothing of a milestone pinned to another model's version, whose gate is settled by `BimInvariants.PinSurvivesExactly`, nor of the model's approval, which `request_changes` may withdraw.
- Arithmetic on version labels: which labels `float` reads is modelled for ASCII text, the label that follows a readable one is a parameter.
- `Timeline.Simulate`: the choice of project and the earned-value text are not modelled, and progress is averaged exactly.
- `ApplicationInvariants.LicensedHaveExactlyOnePermit`: project suspensions by the monitoring and inspection services are not part of this model, nor are permit rows edited by the approval service's source synchronisation.
- `ComplianceGate.ClosingAReportClosesItsActions`: corrective actions created or moved by hand on the board are not among the steps.
- Technical review criteria, comments, reviewer and decider names, seals and timestamps of decisions.
- Role checks of `transition_status`, which the code performs and then ignores.
- The profile and invitation checks of registration: one input says whether they pass. Password rules are one input as well.
- Generic create, update and delete endpoints that bypass the services, the telemetry promotion, imports and the offline queue.
- Concurrent requests: service calls do not interleave.
- Calls the database refuses at their first write, which change nothing, and failures between two writes that no input provokes. Calls that input can stop after their first write are steps of the BIM, compliance and approval models, and their writes stay; a registration or an approval request stopped while its stakeholder record or review criteria are written is not modelled.
