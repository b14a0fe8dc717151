# Campaign lifecycle, BCS string framing and the vote notifications of a Sui crowdfunding front end

The front end of a milestone-based crowdfunding dApp on Sui. A campaign collects
donations until its deadline. If it reaches its goal, the creator has a window to
submit proof of progress. Donors then vote during a second window. When the vote
ends, the creator may withdraw the funds or the donors may claim refunds. The chain
stores raw fields only; the front end works out the lifecycle state from them.

This project models six pieces of that front end, plus three supporting modules:

- **`CampaignState`** (`campaign_state.dfy`). The lifecycle resolver
  `getCampaignState` is a fixed-order rule table over a campaign snapshot and a clock
  value. Built on it are:
  - the countdown of the current window, `getTimeRemaining`;
  - its text, `formatTimeRemaining`;
  - the state sentence, `getStateDescription`;
  - the four permission checks: submitting proof, voting, withdrawing and refunding.
- **`Uleb128`** (`uleb128.dfy`). The specification of unsigned LEB128 (DWARF
  Version 4, section 7.6), which BCS uses as the length prefix of a string: the
  encoding, a decoder and the frame "prefix, then payload".
- **`CreateTx` and `SubmitProofTx`** (`create_tx.dfy`, `submit_proof_tx.dfy`).
  - These are the two copies of `ulebEncode` and `serialize` in the campaign-creation
    and proof-submission transaction builders.
  - Each is an imperative loop, or a typed-array fill, proved against `Uleb128`.
  - The two copies are also proved to agree with each other.
- **`TypedArrays`** (`typed_arrays.dfy`). This is `Uint8Array.prototype.set`, as the
  serializers use it.
- **`ExplorePage`** (`explore.dfy`). This is the category-and-search filter of the
  explore page.
- **`NotificationBell`** (`notification_bell.dfy`). This covers:
  - the loop that picks the donation receipts calling for a vote;
  - the badge label that counts them.
- **Supporting modules:** `Optional` holds the `Option` type used for `undefined` and
  for `|| default`. `Text` holds `toLowerCase`, `includes` and decimal rendering.
  `Subsequences` holds order-preserving selection.

Modelling choices:

- **Amounts** (goal, raised, withdrawn, refunded and votes) are exact `real`s. Times
  are `int` milliseconds.
- **Constants.** The proof period, the voting period and the vote threshold are
  module-level constants of the source. Their values are not part of this model, so
  they are a `Config` parameter. Lemmas that need the threshold in (0, 1] say so.
- **Optional fields.** `types/campaign.ts` declares a `Campaign` without the deadline,
  proof, vote, withdrawn and refunded fields that the resolver reads. So the model
  declares its own snapshot record. Each optional field is an `Option` that
  defaults the way `x || 0` and `x || ""` do.
- **The clock.** `Date.now()` is a parameter.
- **Bytes** are `bv8`.

## Model

| member | source | states |
|---|---|---|
| CampaignState.GetCampaignState | lib/sui/campaign-state.ts:7-63 | The state returned satisfies that state's order-free condition: the deadlines, funding, proof and vote facts that justify it. |
| CampaignState.ResolverMatchesConditions | lib/sui/campaign-state.ts:7-63 | The resolver returns a state exactly when that state's order-free condition holds. The six conditions are pairwise exclusive and cover every snapshot. |
| CampaignState.WithdrawalIsAbsorbing | lib/sui/campaign-state.ts:16-19 | Any withdrawn amount above zero makes the campaign Successful at every clock value. |
| CampaignState.FundingBeforeDeadline | lib/sui/campaign-state.ts:21-24 | Without a withdrawal, a clock before the deadline gives Funding. |
| CampaignState.ShortfallFails | lib/sui/campaign-state.ts:26-31 | From the deadline on, the campaign is Failed when raised + withdrawn + refunded is below the goal. |
| CampaignState.ProofWindow | lib/sui/campaign-state.ts:33-44 | A funded campaign without proof is in ProofSubmission through the proof deadline inclusive. After it, the campaign is Failed. |
| CampaignState.VotingWindowAndOutcome | lib/sui/campaign-state.ts:46-62 | A funded campaign with proof is Voting through the voting deadline inclusive. After it, the campaign is Successful exactly when votes reach total × threshold, and Rejected otherwise. |
| CampaignState.ThresholdExtremes | lib/sui/campaign-state.ts:54-62 | With the threshold in (0, 1], unanimous votes pass. No votes on a campaign that raised something are rejected. |
| CampaignState.MissingFieldsDefault | lib/sui/campaign-state.ts:8-14 | Each of the seven defaulted fields reads as 0 (or "" for the proof) when absent, and the state is the same as with every default written out. |
| CampaignState.StateIsMonotoneInTime | lib/sui/campaign-state.ts:7-63 | For one snapshot, a later clock value gives a state that follows the earlier one. Funding goes anywhere. ProofSubmission goes only to Failed. Voting goes only to Successful or Rejected. |
| CampaignState.FollowsIsPartialOrder | lib/sui/campaign-state.ts:7-63 | "Follows" is reflexive, antisymmetric and transitive, so states never cycle. |
| CampaignState.PathsAreDisjoint | lib/sui/campaign-state.ts:33-52 | A snapshot that is ever in ProofSubmission is never Voting. One that is ever Voting is never in ProofSubmission and never Failed. |
| CampaignState.SampleOutcomes | lib/sui/campaign-state.ts:7-63 | The six outcomes on concrete snapshots, with three-day windows and a 51% threshold. |
| CampaignState.GetTimeRemaining | lib/sui/campaign-state.ts:68-85 | The countdown is never negative and is 0 in the final states. In Funding it is the positive distance to the deadline. In ProofSubmission and Voting it is the distance to that window's end. |
| CampaignState.CountdownTracksClock | lib/sui/campaign-state.ts:68-85 | While the state does not change, the countdown falls exactly as much as the clock advances. |
| CampaignState.JsRem | lib/sui/campaign-state.ts:92-93 | JavaScript's `%` for a positive divisor: the remainder takes the dividend's sign, lies strictly within one divisor of zero, and its magnitude is the dividend's magnitude modulo the divisor. |
| CampaignState.UnitsDecompose | lib/sui/campaign-state.ts:90-93 | For ms ≥ 0, the days, hours (< 24) and minutes (< 60) are the mixed-radix digits of ms, with under one minute left over. |
| CampaignState.FormatTimeRemaining | lib/sui/campaign-state.ts:90-102 | The text is never empty. Which units it shows is stated by FormatShowsLeadingUnits. |
| CampaignState.FormatShowsLeadingUnits | lib/sui/campaign-state.ts:90-102 | The text equals an independent rule. Drop leading units that are not positive, but always keep minutes. Show the first unit left, then the next one only if it is positive. |
| CampaignState.QuantityIsSingularExactlyAtOne | lib/sui/campaign-state.ts:96-100 | A unit word ends in "s" exactly when its count is not 1. |
| CampaignState.CountdownTextIsUnsigned | lib/sui/campaign-state.ts:90-102 | The text for a non-negative duration is non-empty and starts with a digit. |
| CampaignState.FormatExampleMinute | lib/sui/campaign-state.ts:99-100 | 90 000 ms reads "1 minute". |
| CampaignState.FormatExampleHourMinute | lib/sui/campaign-state.ts:97-98 | 3 660 000 ms reads "1 hour, 1 minute". |
| CampaignState.FormatExampleDayHour | lib/sui/campaign-state.ts:95-96 | 90 000 000 ms reads "1 day, 1 hour", with minutes not shown. |
| CampaignState.FormatExampleEdges | lib/sui/campaign-state.ts:90-102 | 0 reads "0 minutes". -1 reads "-1 minutes", because JavaScript's `%` keeps the dividend's sign. |
| CampaignState.StateDescription | lib/sui/campaign-state.ts:107-130 | Every state has a non-empty sentence. |
| CampaignState.DescriptionsAreDistinct | lib/sui/campaign-state.ts:107-130 | Different states have different sentences. |
| CampaignState.DescriptionOffersRefundIff | lib/sui/campaign-state.ts:112-125 | The sentence ends in "Donors can claim refunds." exactly for Failed and Rejected, the states in which refunds are allowed. |
| CampaignState.CanSubmitProof | lib/sui/campaign-state.ts:135-141 | Proof submission is allowed exactly to the creator, in any letter case, of a funded campaign with no proof and no withdrawal, from its deadline through the proof deadline inclusive. The source's separate empty-proof test adds nothing beyond the state test. |
| CampaignState.CanVote | lib/sui/campaign-state.ts:143-150 | Voting is allowed exactly for a campaign with no withdrawal, with total funds at or above the goal and with proof, from its deadline through the voting deadline inclusive. A missing campaign cannot be voted on. |
| CampaignState.CanRefund | lib/sui/campaign-state.ts:159-166 | Refunds are allowed exactly for a campaign with no withdrawal, from its deadline on, that fell short of its goal, missed the proof deadline without proof, or ended its vote below the threshold. A missing campaign allows no refunds. |
| CampaignState.RefundStaysOpen | lib/sui/campaign-state.ts:159-166 | Once refunds are allowed for a snapshot, they stay allowed at every later clock value. |
| CampaignState.CanWithdraw | lib/sui/campaign-state.ts:152-157 | Withdrawal is allowed exactly to the creator, in any letter case, once a withdrawal has happened or once the vote of a funded campaign with proof has ended at or above the threshold. |
| CampaignState.PermissionsIgnoreAddressCase | lib/sui/campaign-state.ts:135-157 | Lower-casing the user's address changes neither the proof-submission nor the withdrawal answer. |
| CampaignState.PermissionsAreExclusive | lib/sui/campaign-state.ts:135-166 | At any one clock value, no two of the four actions are allowed. |
| CampaignState.WithdrawnCampaignNeverRefunds | lib/sui/campaign-state.ts:159-166 | After a withdrawal, refunds are never allowed, while withdrawal stays allowed to the creator. |
| Text.SameAccountIsCaseInsensitiveEquivalence | lib/sui/campaign-state.ts:137 | The address comparison is an equivalence that ignores letter case. |
| Text.ToLower | app/explore/page.tsx:19-20 | Lower-casing keeps the length and maps each character on its own, A-Z to a-z. |
| Text.Includes | app/explore/page.tsx:19-20 | Every string includes the empty string, and a needle longer than the haystack is never included. |
| Text.IncludesIff | app/explore/page.tsx:19-20 | `includes` holds exactly when the needle occurs as a contiguous slice of the haystack. |
| Text.DecimalRoundTrip | components/layout/NotificationBell.tsx:138 | Reading a rendered count back as decimal gives the count. |
| Text.IntToDecimal | lib/sui/campaign-state.ts:96-100 | A non-negative count renders as its plain decimal digits. A negative one renders as a minus sign followed by the digits of its magnitude. |
| Uleb128.EncodeIsWellFormed | lib/sui/create.ts:17-29 | Every byte but the last has the continuation bit, the last does not, and the base-128 digits add back up to the number. |
| Uleb128.EncodeIsMinimal | lib/sui/create.ts:17-29 | The length is the number of base-128 digits. For n > 0 the last byte is non-zero. |
| Uleb128.DecodeStopsAtFirstFinalByte | lib/sui/create.ts:17-29 | The decoder stops at the first byte without the continuation bit. It finds nothing exactly when every byte has that bit. |
| Uleb128.DecodeEncode | lib/sui/create.ts:8-32 | Decoding an encoding, whatever follows it, gives the number back and stops at the encoding's end. |
| Uleb128.DecodeIsEncode | lib/sui/create.ts:8-32 | Any minimal byte string that decodes is the encoding of its value, so encodings are unique. |
| Uleb128.FrameRoundTrip | lib/sui/create.ts:34-42 | The prefix of a framed payload decodes to the payload's length, and the bytes after it are exactly the payload. |
| TypedArrays.SetAt | lib/sui/create.ts:38-39 | The target array afterwards holds the source at the offset and is unchanged elsewhere. |
| CreateTx.UlebEncode | lib/sui/create.ts:8-32 | Zero gives [0], a negative number gives [], and any other number gives its LEB128 encoding. |
| CreateTx.Serialize | lib/sui/create.ts:34-42 | The result is a fresh array holding the LEB128 length followed by the payload. |
| SubmitProofTx.UlebEncode | lib/sui/submit-proof.ts:6-28 | Same contract as the campaign-creation copy. |
| SubmitProofTx.Serialize | lib/sui/submit-proof.ts:30-38 | Same contract as the campaign-creation copy. |
| SubmitProofTx.EncodersAgree | lib/sui/submit-proof.ts:6-28 | The two `ulebEncode` copies return the same bytes on every input. |
| SubmitProofTx.SerializersAgree | lib/sui/submit-proof.ts:30-38 | The two `serialize` copies fill the same bytes on every payload. |
| ExplorePage.FilteredCampaigns | app/explore/page.tsx:15-23 | The result is no longer than the input, and every campaign in it comes from the input and passes both the category chip and the search. |
| ExplorePage.FilteredMembership | app/explore/page.tsx:15-23 | A campaign is in the result exactly when it is in the input, the category chip is "all" or equal to its category, and the query occurs in its title or description, ignoring case. |
| ExplorePage.FilteredKeepsExactlyTheMatches | app/explore/page.tsx:16-22 | Each matching campaign is kept as many times as it occurs, and no other campaign is kept. |
| ExplorePage.FilteredIsSubsequence | app/explore/page.tsx:16-22 | The result keeps the input's order and is no longer than the input. |
| ExplorePage.EmptyQueryKeepsCategory | app/explore/page.tsx:15-23 | With an empty query, the result is exactly the campaigns whose category passes the chip, in order. With chip "all", the list comes back unchanged. |
| ExplorePage.SearchIsCaseInsensitive | app/explore/page.tsx:18-20 | Queries that are equal after lower-casing select the same campaigns. |
| NotificationBell.CollectVotingNotifications | components/layout/NotificationBell.tsx:61-77 | The loop returns exactly the receipt-by-receipt specification of the notifications. |
| NotificationBell.NotificationsAreSound | components/layout/NotificationBell.tsx:64-76 | Every notification pairs an input receipt that is not yet voted with the first campaign carrying its id, and that campaign is Voting. |
| NotificationBell.NotificationsAreComplete | components/layout/NotificationBell.tsx:64-76 | A receipt that calls for a vote appears as often as it occurs among the receipts. Any other receipt never appears. |
| NotificationBell.NotificationsFollowReceipts | components/layout/NotificationBell.tsx:64-76 | Notifications follow the receipts' order, at most one per receipt. |
| NotificationBell.UnmatchedReceiptsContributeNothing | components/layout/NotificationBell.tsx:68-70 | A receipt whose campaign is not found produces no notification. |
| NotificationBell.EligibleReceiptAppearsOnce | components/layout/NotificationBell.tsx:64-76 | When all receipts are different, every receipt that calls for a vote appears exactly once. |
| NotificationBell.FirstWithId | components/layout/NotificationBell.tsx:69 | `find` returns the first campaign with the receipt's campaign id, or none when no campaign has it. |
| NotificationBell.FindById | components/layout/NotificationBell.tsx:69 | A campaign found is one of the list's campaigns, carries the id and is the first one that does. Nothing is found exactly when no campaign carries the id. |
| NotificationBell.BadgeLabel | components/layout/NotificationBell.tsx:138 | The badge text is one or two characters long. |
| NotificationBell.BadgeLabelShowsCount | components/layout/NotificationBell.tsx:138 | The badge reads "9+" exactly for counts above nine. Otherwise it is the count as a single digit. |

## Left out

- Text encoding: `serialize` starts with `new TextEncoder().encode(value)`. UTF-8 encoding is not part of this model, so `Serialize` takes the encoded bytes as its argument.
- `toLowerCase` is modelled on ASCII letters only. Unicode case mapping is not modelled.
- Floating point: amounts are exact reals, so rounding in `totalRaised * VOTE_THRESHOLD`, and `NaN` in the `|| 0` defaults, are not modelled. A field that is present but holds 0 or "" is read the same as an absent one, which is what `||` does.
- JavaScript's exponent notation for very large numbers in template literals is not modelled. `${n}` is plain decimal here.
- The constants `PROOF_SUBMISSION_PERIOD`, `VOTING_PERIOD` and `VOTE_THRESHOLD` live in files that are not part of this model. They are a parameter instead.
- `Date.now()`, the default clock argument of the six functions in `campaign-state.ts` that read the clock, is an explicit parameter.
- `CampaignState.StateDescription` omits the `default: ""` branch of `getStateDescription`, because all six states are covered.
- `TypedArrays.SetAt` requires the copy to fit the target. The out-of-range `RangeError` of `Uint8Array.set` is not modelled, because `serialize` always sizes the array to fit.
- `Uint8Array` stores values modulo 256. This is not modelled, because the encoder only writes values below 256.
- `ulebEncode` accepts a `number` or a `bigint`. A non-integer `number` makes `BigInt` throw; this model takes integers only.
- The rest of the transaction builders is not modelled: the Move call arguments, signing, execution and toasts.
- The NotificationBell component's fetching of campaigns and receipts, its polling interval, its open/close state and its rendering are not modelled. So are the `hasNotifications` guard around the badge and the dropdown summary sentence at line 151. The early return on an empty receipt list gives the same result as the loop on an empty list.
- `campaigns.find` is modelled as a function (`FindById`), not as a loop.
- The explore page's React state and rendering are not modelled. `mockCampaigns` is a parameter.
