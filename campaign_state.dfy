/** The campaign lifecycle resolver: which of six states a campaign snapshot is in
    at a given clock value, the countdown of the current window, its display text,
    and the four permission checks built on top of it. */
module CampaignState {
  import opened Optional
  import opened Text

  datatype State = Funding | Failed | ProofSubmission | Voting | Successful | Rejected

  /** A campaign snapshot as read from the chain. Fields that the resolver
      defaults with `|| 0` or `|| ""` are optional. Amounts are exact reals in
      display units; times are milliseconds. */
  datatype Campaign = Campaign(
    id: string,
    title: string,
    description: string,
    category: string,
    creator: string,
    goal: Option<real>,
    raised: Option<real>,
    deadline: Option<int>,
    proof: Option<string>,
    voteAmount: Option<real>,
    withdrawnAmount: Option<real>,
    refundedAmount: Option<real>)

  /** The module-level constants the resolver reads: the length of the proof
      window, the length of the voting window (both in milliseconds) and the
      fraction of all funds that must vote yes. */
  datatype Config = Config(proofSubmissionPeriod: nat, votingPeriod: nat, voteThreshold: real)

  /** The threshold is a fraction in (0, 1]. */
  predicate ValidThreshold(cfg: Config) {
    0.0 < cfg.voteThreshold <= 1.0
  }

  // The defaulted fields, as the resolver reads them.
  function Deadline(c: Campaign): int { c.deadline.GetOr(0) }
  function Raised(c: Campaign): real { c.raised.GetOr(0.0) }
  function Withdrawn(c: Campaign): real { c.withdrawnAmount.GetOr(0.0) }
  function Refunded(c: Campaign): real { c.refundedAmount.GetOr(0.0) }
  function Goal(c: Campaign): real { c.goal.GetOr(0.0) }
  function Proof(c: Campaign): string { c.proof.GetOr("") }
  function Votes(c: Campaign): real { c.voteAmount.GetOr(0.0) }

  /** Everything ever contributed: what is still in escrow plus what left it. */
  function TotalRaised(c: Campaign): real { Raised(c) + Withdrawn(c) + Refunded(c) }

  function ProofDeadline(c: Campaign, cfg: Config): int {
    Deadline(c) + cfg.proofSubmissionPeriod
  }

  function VotingDeadline(c: Campaign, cfg: Config): int {
    Deadline(c) + cfg.proofSubmissionPeriod + cfg.votingPeriod
  }

  /** The resolver: rules tried in a fixed order, the first that applies wins. */
  function GetCampaignState(c: Campaign, currentTime: int, cfg: Config): (s: State)
    ensures Condition(s, c, currentTime, cfg)
  {
    if Withdrawn(c) > 0.0 then Successful
    else if currentTime < Deadline(c) then Funding
    else if TotalRaised(c) < Goal(c) then Failed
    else if Proof(c) == "" && currentTime > ProofDeadline(c, cfg) then Failed
    else if Proof(c) == "" && currentTime <= ProofDeadline(c, cfg) then ProofSubmission
    else if currentTime <= VotingDeadline(c, cfg) then Voting
    else if Votes(c) >= TotalRaised(c) * cfg.voteThreshold then Successful
    else Rejected
  }

  // ---------------------------------------------------------------------------
  // The rules one by one: each holds whatever the fields consulted by later rules are.

  /** A withdrawal makes the campaign successful at every clock value. */
  lemma WithdrawalIsAbsorbing(c: Campaign, t: int, cfg: Config)
    requires Withdrawn(c) > 0.0
    ensures GetCampaignState(c, t, cfg) == Successful
  {
  }

  /** Before the deadline, and without a withdrawal, the campaign is funding. */
  lemma FundingBeforeDeadline(c: Campaign, t: int, cfg: Config)
    requires Withdrawn(c) <= 0.0 && t < Deadline(c)
    ensures GetCampaignState(c, t, cfg) == Funding
  {
  }

  /** From the deadline on, a campaign short of its goal has failed. */
  lemma ShortfallFails(c: Campaign, t: int, cfg: Config)
    requires Withdrawn(c) <= 0.0 && Deadline(c) <= t
    requires TotalRaised(c) < Goal(c)
    ensures GetCampaignState(c, t, cfg) == Failed
  {
  }

  /** A funded campaign without proof waits for it through the proof deadline inclusive, then fails. */
  lemma ProofWindow(c: Campaign, t: int, cfg: Config)
    requires Withdrawn(c) <= 0.0 && Deadline(c) <= t
    requires TotalRaised(c) >= Goal(c) && Proof(c) == ""
    ensures GetCampaignState(c, t, cfg) == (if t <= ProofDeadline(c, cfg) then ProofSubmission else Failed)
  {
  }

  /** A funded campaign with proof is voting through the voting deadline inclusive;
      afterwards it succeeds exactly when the yes votes reach the threshold share of all funds. */
  lemma VotingWindowAndOutcome(c: Campaign, t: int, cfg: Config)
    requires Withdrawn(c) <= 0.0 && Deadline(c) <= t
    requires TotalRaised(c) >= Goal(c) && Proof(c) != ""
    ensures t <= VotingDeadline(c, cfg) ==> GetCampaignState(c, t, cfg) == Voting
    ensures t > VotingDeadline(c, cfg) ==>
      (GetCampaignState(c, t, cfg) == Successful <==> Votes(c) >= TotalRaised(c) * cfg.voteThreshold)
    ensures t > VotingDeadline(c, cfg) ==>
      GetCampaignState(c, t, cfg) in {Successful, Rejected}
  {
  }

  /** With the threshold in (0, 1]: a unanimous yes passes, and no votes at all on a
      campaign that raised something is rejected. */
  lemma ThresholdExtremes(c: Campaign, t: int, cfg: Config)
    requires ValidThreshold(cfg)
    requires Withdrawn(c) <= 0.0 && TotalRaised(c) >= Goal(c) && Proof(c) != ""
    requires t > VotingDeadline(c, cfg)
    ensures Votes(c) >= TotalRaised(c) && TotalRaised(c) >= 0.0 ==> GetCampaignState(c, t, cfg) == Successful
    ensures Votes(c) <= 0.0 && TotalRaised(c) > 0.0 ==> GetCampaignState(c, t, cfg) == Rejected
  {
    var total, q := TotalRaised(c), cfg.voteThreshold;
    if Votes(c) >= total && total >= 0.0 {
      assert total - total * q == total * (1.0 - q);
      assert total * (1.0 - q) >= 0.0;
    }
    if Votes(c) <= 0.0 && total > 0.0 {
      assert total * q > 0.0;
    }
  }

  /** The snapshot with every optional field made explicit with its default. */
  function WithDefaults(c: Campaign): Campaign {
    c.(goal := Some(Goal(c)), raised := Some(Raised(c)), deadline := Some(Deadline(c)),
       proof := Some(Proof(c)), voteAmount := Some(Votes(c)),
       withdrawnAmount := Some(Withdrawn(c)), refundedAmount := Some(Refunded(c)))
  }

  /** A missing field is read as 0 or the empty string. */
  lemma MissingFieldsDefault(c: Campaign, t: int, cfg: Config)
    ensures GetCampaignState(c, t, cfg) == GetCampaignState(WithDefaults(c), t, cfg)
    ensures WithDefaults(c).deadline.Some? && WithDefaults(c).proof.Some?
    ensures c.deadline.None? ==> Deadline(c) == 0
    ensures c.raised.None? ==> Raised(c) == 0.0
    ensures c.withdrawnAmount.None? ==> Withdrawn(c) == 0.0
    ensures c.refundedAmount.None? ==> Refunded(c) == 0.0
    ensures c.goal.None? ==> Goal(c) == 0.0
    ensures c.proof.None? ==> Proof(c) == ""
    ensures c.voteAmount.None? ==> Votes(c) == 0.0
  {
  }

  // ---------------------------------------------------------------------------
  // An order-free reading of the table: one condition per state, the conditions
  // pairwise exclusive and together exhaustive.

  ghost predicate Condition(s: State, c: Campaign, t: int, cfg: Config) {
    var open := Withdrawn(c) <= 0.0;
    var funded := TotalRaised(c) >= Goal(c);
    var ended := t > VotingDeadline(c, cfg);
    var passed := Votes(c) >= TotalRaised(c) * cfg.voteThreshold;
    match s
    case Funding => open && t < Deadline(c)
    case Failed => open && Deadline(c) <= t &&
      (!funded || (Proof(c) == "" && t > ProofDeadline(c, cfg)))
    case ProofSubmission => open && Deadline(c) <= t <= ProofDeadline(c, cfg) && funded && Proof(c) == ""
    case Voting => open && Deadline(c) <= t && funded && Proof(c) != "" && !ended
    case Successful => !open || (Deadline(c) <= t && funded && Proof(c) != "" && ended && passed)
    case Rejected => open && Deadline(c) <= t && funded && Proof(c) != "" && ended && !passed
  }

  /** The resolver returns a state exactly when that state's condition holds. */
  lemma ResolverMatchesConditions(c: Campaign, t: int, cfg: Config, s: State)
    ensures GetCampaignState(c, t, cfg) == s <==> Condition(s, c, t, cfg)
  {
  }

  // ---------------------------------------------------------------------------
  // Progress over time.

  /** `b` can be observed at a later clock value than `a` for the same snapshot:
      funding leads anywhere, the proof window leads only to failure, and the
      voting window only to success or rejection. */
  predicate Follows(a: State, b: State) {
    a == b
    || a == Funding
    || (a == ProofSubmission && b == Failed)
    || (a == Voting && (b == Successful || b == Rejected))
  }

  /** `Follows` is a partial order. */
  lemma FollowsIsPartialOrder(a: State, b: State, c: State)
    ensures Follows(a, a)
    ensures Follows(a, b) && Follows(b, a) ==> a == b
    ensures Follows(a, b) && Follows(b, c) ==> Follows(a, c)
  {
  }

  /** As the clock advances, the state never goes back. */
  lemma StateIsMonotoneInTime(c: Campaign, t1: int, t2: int, cfg: Config)
    requires t1 <= t2
    ensures Follows(GetCampaignState(c, t1, cfg), GetCampaignState(c, t2, cfg))
  {
  }

  /** One snapshot takes one of the three paths only: a campaign that ever waits for
      proof never votes, and one that ever votes never waits for proof or fails. */
  lemma PathsAreDisjoint(c: Campaign, t1: int, t2: int, cfg: Config)
    ensures GetCampaignState(c, t1, cfg) == ProofSubmission ==>
      GetCampaignState(c, t2, cfg) in {Funding, ProofSubmission, Failed}
    ensures GetCampaignState(c, t1, cfg) == Voting ==>
      GetCampaignState(c, t2, cfg) in {Funding, Voting, Successful, Rejected}
  {
  }

  // ---------------------------------------------------------------------------
  // Countdown.

  function Max(a: int, b: int): int { if a < b then b else a }

  /** Milliseconds left in the current window; zero once the state is final. */
  function GetTimeRemaining(c: Campaign, currentTime: int, cfg: Config): (r: int)
    ensures r >= 0
    ensures GetCampaignState(c, currentTime, cfg) in {Failed, Successful, Rejected} ==> r == 0
    ensures GetCampaignState(c, currentTime, cfg) == Funding ==> r == Deadline(c) - currentTime > 0
    ensures GetCampaignState(c, currentTime, cfg) == ProofSubmission ==>
      r == ProofDeadline(c, cfg) - currentTime
    ensures GetCampaignState(c, currentTime, cfg) == Voting ==>
      r == VotingDeadline(c, cfg) - currentTime
  {
    match GetCampaignState(c, currentTime, cfg)
    case Funding => Max(0, Deadline(c) - currentTime)
    case ProofSubmission => Max(0, ProofDeadline(c, cfg) - currentTime)
    case Voting => Max(0, VotingDeadline(c, cfg) - currentTime)
    case _ => 0
  }

  /** Within one open window the countdown falls one for one with the clock. */
  lemma CountdownTracksClock(c: Campaign, t1: int, t2: int, cfg: Config)
    requires t1 <= t2
    requires GetCampaignState(c, t1, cfg) == GetCampaignState(c, t2, cfg)
    requires GetCampaignState(c, t1, cfg) in {Funding, ProofSubmission, Voting}
    ensures GetTimeRemaining(c, t2, cfg) == GetTimeRemaining(c, t1, cfg) - (t2 - t1)
  {
  }

  // ---------------------------------------------------------------------------
  // Countdown text.

  const MinuteMs := 60 * 1000
  const HourMs := 60 * MinuteMs
  const DayMs := 24 * HourMs

  /** JavaScript's `%`: the remainder takes the sign of the dividend. (`Math.floor(a / b)`
      with b > 0 is Dafny's `/`, which already rounds down.) */
  function JsRem(a: int, b: int): (r: int)
    requires b > 0
    ensures a >= 0 ==> 0 <= r < b
    ensures a < 0 ==> -b < r <= 0
    ensures (if r < 0 then -r else r) == (if a < 0 then -a else a) % b
  {
    if a >= 0 then a % b else -((-a) % b)
  }

  function Days(ms: int): int { ms / DayMs }
  function Hours(ms: int): int { JsRem(ms, DayMs) / HourMs }
  function Minutes(ms: int): int { JsRem(ms, HourMs) / MinuteMs }

  /** A count and its unit, plural unless the count is exactly 1. */
  function Quantity(n: int, unit: string): string {
    IntToDecimal(n) + " " + unit + (if n != 1 then "s" else "")
  }

  /** The countdown text: never empty; `FormatShowsLeadingUnits` states which units it shows. */
  function FormatTimeRemaining(ms: int): (r: string)
    ensures |r| > 0
  {
    var days, hours, minutes := Days(ms), Hours(ms), Minutes(ms);
    if days > 0 then
      Quantity(days, "day") + (if hours > 0 then ", " + Quantity(hours, "hour") else "")
    else if hours > 0 then
      Quantity(hours, "hour") + (if minutes > 0 then ", " + Quantity(minutes, "minute") else "")
    else
      Quantity(minutes, "minute")
  }

  /** For a non-negative duration the three counts are its mixed-radix digits:
      whole days, then hours below 24, then minutes below 60, with under a minute left over. */
  lemma UnitsDecompose(ms: int)
    requires ms >= 0
    ensures Days(ms) >= 0 && 0 <= Hours(ms) < 24 && 0 <= Minutes(ms) < 60
    ensures Days(ms) * DayMs + Hours(ms) * HourMs + Minutes(ms) * MinuteMs <= ms
    ensures ms < Days(ms) * DayMs + Hours(ms) * HourMs + (Minutes(ms) + 1) * MinuteMs
  {
    var d, r := ms / DayMs, ms % DayMs;
    var h, r2 := r / HourMs, r % HourMs;
    assert ms == d * DayMs + r;
    assert r == h * HourMs + r2;
    assert d * DayMs == (d * 24) * HourMs;
    HourDivModUnique(ms, d * 24 + h, r2);
    var m := r2 / MinuteMs;
    assert r2 == m * MinuteMs + r2 % MinuteMs;
  }

  /** Whole hours and the rest are the only pair that rebuilds a duration. */
  lemma HourDivModUnique(a: int, q: int, r: int)
    requires 0 <= r < HourMs && a == q * HourMs + r
    ensures a % HourMs == r
  {
  }

  /** An independent reading of the format: list days, hours and minutes, skip the
      leading units that are not positive (always keeping minutes), then show the
      first unit left and the next one only when it is positive. */
  function Units(ms: int): seq<(int, string)> {
    [(Days(ms), "day"), (Hours(ms), "hour"), (Minutes(ms), "minute")]
  }

  function DropLeadingZeros(us: seq<(int, string)>): (r: seq<(int, string)>)
    requires |us| >= 1
    ensures 1 <= |r| <= |us|
  {
    if |us| > 1 && us[0].0 <= 0 then DropLeadingZeros(us[1..]) else us
  }

  function Shown(us: seq<(int, string)>): seq<(int, string)>
    requires |us| >= 1
  {
    if |us| >= 2 && us[1].0 > 0 then us[..2] else us[..1]
  }

  function Render(us: seq<(int, string)>): string {
    if us == [] then ""
    else if |us| == 1 then Quantity(us[0].0, us[0].1)
    else Quantity(us[0].0, us[0].1) + ", " + Render(us[1..])
  }

  lemma FormatShowsLeadingUnits(ms: int)
    ensures FormatTimeRemaining(ms) == Render(Shown(DropLeadingZeros(Units(ms))))
  {
    var us := Units(ms);
    var d, h, m := (Days(ms), "day"), (Hours(ms), "hour"), (Minutes(ms), "minute");
    assert us == [d, h, m];
    if Days(ms) > 0 {
      assert DropLeadingZeros(us) == us;
    } else {
      assert us[1..] == [h, m];
      if Hours(ms) > 0 {
        assert DropLeadingZeros(us) == [h, m];
      } else {
        assert [h, m][1..] == [m];
        assert DropLeadingZeros([m]) == [m];
        assert DropLeadingZeros([h, m]) == [m];
        assert DropLeadingZeros(us) == [m];
      }
    }
  }

  /** A unit word is singular exactly when its count is 1. */
  lemma QuantityIsSingularExactlyAtOne(n: int, unit: string)
    requires unit in {"day", "hour", "minute"}
    ensures var q := Quantity(n, unit); q[|q| - 1] == 's' <==> n != 1
  {
  }

  /** The countdown text of a non-negative duration starts with a digit. */
  lemma CountdownTextIsUnsigned(ms: int)
    requires ms >= 0
    ensures var s := FormatTimeRemaining(ms); |s| > 0 && IsDigit(s[0])
  {
    UnitsDecompose(ms);
  }

  lemma FormatExampleMinute()
    ensures FormatTimeRemaining(90000) == "1 minute"
  {
    assert Days(90000) == 0 && Hours(90000) == 0 && Minutes(90000) == 1;
  }

  lemma FormatExampleHourMinute()
    ensures FormatTimeRemaining(3660000) == "1 hour, 1 minute"
  {
    assert Days(3660000) == 0 && Hours(3660000) == 1 && Minutes(3660000) == 1;
  }

  lemma FormatExampleDayHour()
    ensures FormatTimeRemaining(90000000) == "1 day, 1 hour"
  {
    assert Days(90000000) == 1 && Hours(90000000) == 1;
  }

  lemma FormatExampleEdges()
    ensures FormatTimeRemaining(0) == "0 minutes"
    ensures FormatTimeRemaining(-1) == "-1 minutes"
  {
    assert Days(0) == 0 && Hours(0) == 0 && Minutes(0) == 0;
    assert Days(-1) == -1 && Hours(-1) == -1 && Minutes(-1) == -1;
  }

  // ---------------------------------------------------------------------------
  // Display text.

  function StateDescription(s: State): (r: string)
    ensures r != ""
  {
    match s
    case Funding => "Campaign is currently accepting donations"
    case Failed => "Campaign did not reach its goal or proof was not submitted. " + RefundSentence
    case ProofSubmission => "Waiting for creator to submit proof of progress"
    case Voting => "Voting period is active. Donors can vote on whether the creator is using funds properly."
    case Successful => "Campaign successful! The creator can withdraw funds."
    case Rejected => "Vote did not pass. " + RefundSentence
  }

  const RefundSentence := "Donors can claim refunds."

  /** Each state has its own sentence. */
  lemma DescriptionsAreDistinct(s1: State, s2: State)
    ensures s1 != s2 ==> StateDescription(s1) != StateDescription(s2)
  {
    DescriptionLength(s1);
    DescriptionLength(s2);
  }

  /** The six sentences have six different lengths. */
  lemma DescriptionLength(s: State)
    ensures |StateDescription(s)| == match s
      case Funding => 41 case Failed => 85 case ProofSubmission => 47
      case Voting => 88 case Successful => 52 case Rejected => 44
  {
    match s
    case Funding =>
    case Failed =>
    case ProofSubmission =>
    case Voting =>
    case Successful =>
    case Rejected =>
  }

  /** The sentence offers refunds exactly in the states where refunds are allowed. */
  lemma DescriptionOffersRefundIff(s: State)
    ensures IsSuffix(RefundSentence, StateDescription(s)) <==> s in {Failed, Rejected}
  {
    var d := StateDescription(s);
    match s
    case Failed =>
      SuffixOfConcat("Campaign did not reach its goal or proof was not submitted. ", RefundSentence);
    case Rejected =>
      SuffixOfConcat("Vote did not pass. ", RefundSentence);
    case Funding =>
      assert d[|d| - 1] != RefundSentence[|RefundSentence| - 1];
    case ProofSubmission =>
      assert d[|d| - 1] != RefundSentence[|RefundSentence| - 1];
    case Voting =>
      assert d[|d| - 2] != RefundSentence[|RefundSentence| - 2];
    case Successful =>
      assert d[|d| - 7] != RefundSentence[|RefundSentence| - 7];
  }

  predicate IsSuffix(p: string, s: string) {
    |p| <= |s| && s[|s| - |p|..] == p
  }

  lemma SuffixOfConcat(a: string, p: string)
    ensures IsSuffix(p, a + p)
  {
    assert (a + p)[|a|..] == p;
  }

  // ---------------------------------------------------------------------------
  // Permissions.

  /** The creator, in any letter case, may submit proof exactly while a funded campaign
      without proof and without a withdrawal is between its deadline and its proof
      deadline inclusive. */
  function CanSubmitProof(c: Campaign, userAddress: string, currentTime: int, cfg: Config): (r: bool)
    ensures r <==>
      SameAccount(c.creator, userAddress) && Withdrawn(c) <= 0.0 &&
      Deadline(c) <= currentTime <= ProofDeadline(c, cfg) &&
      TotalRaised(c) >= Goal(c) && Proof(c) == ""
  {
    var isCreator := SameAccount(c.creator, userAddress);
    var hasNoProof := Proof(c) == "";
    GetCampaignState(c, currentTime, cfg) == ProofSubmission && isCreator && hasNoProof
  }

  /** Voting is open exactly to a funded campaign with proof and without a withdrawal,
      from its deadline through the voting deadline inclusive; a missing campaign cannot
      be voted on. */
  function CanVote(c: Option<Campaign>, currentTime: int, cfg: Config): (r: bool)
    ensures c.None? ==> !r
    ensures c.Some? ==> (r <==>
      Withdrawn(c.value) <= 0.0 && Deadline(c.value) <= currentTime <= VotingDeadline(c.value, cfg) &&
      TotalRaised(c.value) >= Goal(c.value) && Proof(c.value) != "")
  {
    c.Some? && GetCampaignState(c.value, currentTime, cfg) == Voting
  }

  /** The creator, in any letter case, may withdraw exactly once a withdrawal has
      happened, or once the vote of a funded campaign with proof has ended and passed. */
  function CanWithdraw(c: Campaign, userAddress: string, currentTime: int, cfg: Config): (r: bool)
    ensures r <==>
      SameAccount(c.creator, userAddress) &&
      (Withdrawn(c) > 0.0 ||
       (Deadline(c) <= currentTime && TotalRaised(c) >= Goal(c) && Proof(c) != "" &&
        currentTime > VotingDeadline(c, cfg) && Votes(c) >= TotalRaised(c) * cfg.voteThreshold))
  {
    var isCreator := SameAccount(c.creator, userAddress);
    GetCampaignState(c, currentTime, cfg) == Successful && isCreator
  }

  /** Refunds are open exactly to a campaign without a withdrawal, from its deadline on,
      that fell short of its goal, missed the proof deadline or lost the vote; a missing
      campaign has none. */
  function CanRefund(c: Option<Campaign>, currentTime: int, cfg: Config): (r: bool)
    ensures c.None? ==> !r
    ensures c.Some? ==> (r <==>
      Withdrawn(c.value) <= 0.0 && Deadline(c.value) <= currentTime &&
      (TotalRaised(c.value) < Goal(c.value)
       || (Proof(c.value) == "" && currentTime > ProofDeadline(c.value, cfg))
       || (Proof(c.value) != "" && currentTime > VotingDeadline(c.value, cfg) &&
           Votes(c.value) < TotalRaised(c.value) * cfg.voteThreshold)))
  {
    c.Some? && GetCampaignState(c.value, currentTime, cfg) in {Failed, Rejected}
  }

  /** The address comparisons ignore letter case: lower-casing the user's address
      changes neither the proof nor the withdrawal permission. */
  lemma PermissionsIgnoreAddressCase(c: Campaign, user: string, t: int, cfg: Config)
    ensures CanSubmitProof(c, user, t, cfg) <==> CanSubmitProof(c, ToLower(user), t, cfg)
    ensures CanWithdraw(c, user, t, cfg) <==> CanWithdraw(c, ToLower(user), t, cfg)
  {
    ToLowerIdempotent(user);
  }

  /** Once refunds are open for a snapshot they stay open as the clock advances. */
  lemma RefundStaysOpen(c: Campaign, t1: int, t2: int, cfg: Config)
    requires t1 <= t2 && CanRefund(Some(c), t1, cfg)
    ensures CanRefund(Some(c), t2, cfg)
  {
    StateIsMonotoneInTime(c, t1, t2, cfg);
  }

  /** At one clock value at most one of the four actions is open to anyone. */
  lemma PermissionsAreExclusive(c: Campaign, user: string, t: int, cfg: Config)
    ensures !(CanSubmitProof(c, user, t, cfg) && CanVote(Some(c), t, cfg))
    ensures !(CanSubmitProof(c, user, t, cfg) && CanWithdraw(c, user, t, cfg))
    ensures !(CanSubmitProof(c, user, t, cfg) && CanRefund(Some(c), t, cfg))
    ensures !(CanVote(Some(c), t, cfg) && CanWithdraw(c, user, t, cfg))
    ensures !(CanVote(Some(c), t, cfg) && CanRefund(Some(c), t, cfg))
    ensures !(CanWithdraw(c, user, t, cfg) && CanRefund(Some(c), t, cfg))
  {
  }

  /** After a withdrawal, refunds are never offered, and withdrawal stays offered to the creator. */
  lemma WithdrawnCampaignNeverRefunds(c: Campaign, t: int, cfg: Config)
    requires Withdrawn(c) > 0.0
    ensures !CanRefund(Some(c), t, cfg)
    ensures CanWithdraw(c, c.creator, t, cfg)
  {
  }

  // ---------------------------------------------------------------------------
  // Sample parameters: three-day windows and a 51% threshold.

  const SampleConfig := Config(3 * DayMs, 3 * DayMs, 0.51)

  function Sample(goal: real, raised: real, deadline: int, proof: string, votes: real): Campaign {
    Campaign("1", "t", "d", "tech", "0xAB", Some(goal), Some(raised), Some(deadline), Some(proof),
             Some(votes), None, None)
  }

  lemma SampleOutcomes(now: int)
    ensures GetCampaignState(Sample(100.0, 50.0, now - 1, "", 0.0), now, SampleConfig) == Failed
    ensures GetCampaignState(Sample(100.0, 120.0, now - 1, "", 0.0), now - 1 + DayMs, SampleConfig) == ProofSubmission
    ensures GetCampaignState(Sample(100.0, 120.0, now - 1, "", 0.0), now - 1 + 4 * DayMs, SampleConfig) == Failed
    ensures GetCampaignState(Sample(100.0, 200.0, now, "ok", 0.0), now + 4 * DayMs, SampleConfig) == Voting
    ensures GetCampaignState(Sample(100.0, 200.0, now, "ok", 110.0), now + 7 * DayMs, SampleConfig) == Successful
    ensures GetCampaignState(Sample(100.0, 200.0, now, "ok", 90.0), now + 7 * DayMs, SampleConfig) == Rejected
  {
  }
}
