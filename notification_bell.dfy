/** The notification bell: which of the user's donation receipts call for a vote
    right now, and the label of the badge that counts them. */
module NotificationBell {
  import opened Optional
  import opened Text
  import opened CampaignState
  import opened Subsequences

  datatype DonationReceipt = DonationReceipt(id: string, campaignId: string, amount: real, voted: bool)

  datatype VotingNotification = VotingNotification(campaign: Campaign, receipt: DonationReceipt)

  /** The position of the first campaign with the given id, or the list's length when there is none. */
  function FirstWithId(campaigns: seq<Campaign>, id: string): (k: nat)
    ensures k <= |campaigns|
    ensures k < |campaigns| ==> campaigns[k].id == id
    ensures forall j | 0 <= j < k :: campaigns[j].id != id
  {
    if campaigns == [] then 0
    else if campaigns[0].id == id then 0
    else 1 + FirstWithId(campaigns[1..], id)
  }

  /** `campaigns.find(c => c.id === id)`. */
  function FindById(campaigns: seq<Campaign>, id: string): (r: Option<Campaign>)
    ensures r.Some? ==> r.value in campaigns && r.value.id == id
    ensures r.Some? ==> exists k | 0 <= k < |campaigns| ::
      r.value == campaigns[k] && forall j | 0 <= j < k :: campaigns[j].id != id
    ensures r.None? <==> forall j | 0 <= j < |campaigns| :: campaigns[j].id != id
  {
    var k := FirstWithId(campaigns, id);
    if k < |campaigns| then Some(campaigns[k]) else None
  }

  /** A receipt calls for a vote: not voted yet, its campaign found, and that campaign voting. */
  predicate Eligible(r: DonationReceipt, campaigns: seq<Campaign>, currentTime: int, cfg: Config) {
    var found := FindById(campaigns, r.campaignId);
    !r.voted && found.Some? && GetCampaignState(found.value, currentTime, cfg) == Voting
  }

  /** What one receipt adds to the list. */
  function Pick(r: DonationReceipt, campaigns: seq<Campaign>, currentTime: int, cfg: Config): seq<VotingNotification> {
    if Eligible(r, campaigns, currentTime, cfg)
    then [VotingNotification(FindById(campaigns, r.campaignId).value, r)]
    else []
  }

  /** The notifications for a list of receipts, receipt by receipt. */
  function Notifications(receipts: seq<DonationReceipt>, campaigns: seq<Campaign>, currentTime: int, cfg: Config)
    : seq<VotingNotification>
  {
    if receipts == [] then []
    else Pick(receipts[0], campaigns, currentTime, cfg) + Notifications(receipts[1..], campaigns, currentTime, cfg)
  }

  lemma {:induction false} NotificationsAppend(
    receipts: seq<DonationReceipt>, r: DonationReceipt, campaigns: seq<Campaign>, currentTime: int, cfg: Config)
    ensures Notifications(receipts + [r], campaigns, currentTime, cfg) ==
      Notifications(receipts, campaigns, currentTime, cfg) + Pick(r, campaigns, currentTime, cfg)
  {
    if receipts != [] {
      assert (receipts + [r])[1..] == receipts[1..] + [r];
      NotificationsAppend(receipts[1..], r, campaigns, currentTime, cfg);
    } else {
      assert [r][1..] == [];
    }
  }

  /** The selection loop of the fetch effect, run at one clock value read before it starts. */
  method CollectVotingNotifications(
    receipts: seq<DonationReceipt>, campaigns: seq<Campaign>, currentTime: int, cfg: Config)
    returns (votingNotifications: seq<VotingNotification>)
    ensures votingNotifications == Notifications(receipts, campaigns, currentTime, cfg)
  {
    votingNotifications := [];
    for k := 0 to |receipts|
      invariant votingNotifications == Notifications(receipts[..k], campaigns, currentTime, cfg)
    {
      var receipt := receipts[k];
      assert receipts[..k + 1] == receipts[..k] + [receipt];
      NotificationsAppend(receipts[..k], receipt, campaigns, currentTime, cfg);

      if receipt.voted {
        continue;
      }

      var campaign := FindById(campaigns, receipt.campaignId);
      if campaign.None? {
        continue;
      }

      var state := GetCampaignState(campaign.value, currentTime, cfg);
      if state == Voting {
        votingNotifications := votingNotifications + [VotingNotification(campaign.value, receipt)];
      }
    }
    assert receipts[..|receipts|] == receipts;
  }

  function ReceiptsOf(ns: seq<VotingNotification>): (rs: seq<DonationReceipt>)
    ensures |rs| == |ns|
    ensures forall j | 0 <= j < |ns| :: rs[j] == ns[j].receipt
  {
    if ns == [] then [] else [ns[0].receipt] + ReceiptsOf(ns[1..])
  }

  /** A notification is justified when its receipt is unvoted, its campaign is the first
      one carrying the receipt's campaign id, and that campaign is voting at the clock value. */
  predicate Justified(n: VotingNotification, campaigns: seq<Campaign>, currentTime: int, cfg: Config) {
    && !n.receipt.voted
    && FirstWithId(campaigns, n.receipt.campaignId) < |campaigns|
    && n.campaign == campaigns[FirstWithId(campaigns, n.receipt.campaignId)]
    && n.campaign.id == n.receipt.campaignId
    && GetCampaignState(n.campaign, currentTime, cfg) == Voting
  }

  /** Soundness: every notification is justified and pairs one of the input receipts. */
  lemma {:induction false} NotificationsAreSound(
    receipts: seq<DonationReceipt>, campaigns: seq<Campaign>, currentTime: int, cfg: Config)
    ensures forall n | n in Notifications(receipts, campaigns, currentTime, cfg) ::
      Justified(n, campaigns, currentTime, cfg) && n.receipt in receipts
  {
    if receipts != [] {
      NotificationsAreSound(receipts[1..], campaigns, currentTime, cfg);
      var head := Pick(receipts[0], campaigns, currentTime, cfg);
      var tail := Notifications(receipts[1..], campaigns, currentTime, cfg);
      assert Notifications(receipts, campaigns, currentTime, cfg) == head + tail;
      forall n | n in head
        ensures Justified(n, campaigns, currentTime, cfg) && n.receipt in receipts
      {
      }
      forall n | n in tail
        ensures n.receipt in receipts
      {
        assert n.receipt in receipts[1..];
      }
    }
  }

  /** The notifications follow the order of the receipts, at most one per receipt. */
  lemma {:induction false} NotificationsFollowReceipts(
    receipts: seq<DonationReceipt>, campaigns: seq<Campaign>, currentTime: int, cfg: Config)
    ensures var ns := Notifications(receipts, campaigns, currentTime, cfg);
      IsSubsequence(ReceiptsOf(ns), receipts) && |ns| <= |receipts|
  {
    if receipts != [] {
      NotificationsFollowReceipts(receipts[1..], campaigns, currentTime, cfg);
      var tail := Notifications(receipts[1..], campaigns, currentTime, cfg);
      var ns := Notifications(receipts, campaigns, currentTime, cfg);
      if Eligible(receipts[0], campaigns, currentTime, cfg) {
        assert ReceiptsOf(ns)[1..] == ReceiptsOf(tail);
      } else {
        assert ns == tail;
        if ReceiptsOf(tail) != [] {
          SubsequenceOfTail(ReceiptsOf(tail), receipts);
        }
      }
    }
  }

  /** Completeness: a receipt that calls for a vote appears as often as it occurs among the
      receipts, and any other receipt (voted, without a campaign, or not voting) never appears. */
  lemma {:induction false} NotificationsAreComplete(
    receipts: seq<DonationReceipt>, campaigns: seq<Campaign>, currentTime: int, cfg: Config, r: DonationReceipt)
    ensures multiset(ReceiptsOf(Notifications(receipts, campaigns, currentTime, cfg)))[r] ==
      if Eligible(r, campaigns, currentTime, cfg) then multiset(receipts)[r] else 0
  {
    if receipts != [] {
      NotificationsAreComplete(receipts[1..], campaigns, currentTime, cfg, r);
      var head := Pick(receipts[0], campaigns, currentTime, cfg);
      var tail := Notifications(receipts[1..], campaigns, currentTime, cfg);
      ReceiptsOfAppend(head, tail);
      PickCount(receipts[0], campaigns, currentTime, cfg, r);
      assert receipts == [receipts[0]] + receipts[1..];
      assert multiset(receipts)[r] == multiset([receipts[0]])[r] + multiset(receipts[1..])[r];
    }
  }

  lemma {:induction false} ReceiptsOfAppend(a: seq<VotingNotification>, b: seq<VotingNotification>)
    ensures ReceiptsOf(a + b) == ReceiptsOf(a) + ReceiptsOf(b)
  {
    assert |ReceiptsOf(a + b)| == |ReceiptsOf(a) + ReceiptsOf(b)|;
    forall j | 0 <= j < |a + b|
      ensures ReceiptsOf(a + b)[j] == (ReceiptsOf(a) + ReceiptsOf(b))[j]
    {
      if j >= |a| {
        assert (a + b)[j] == b[j - |a|];
      }
    }
  }

  lemma PickCount(r0: DonationReceipt, campaigns: seq<Campaign>, currentTime: int, cfg: Config, r: DonationReceipt)
    ensures multiset(ReceiptsOf(Pick(r0, campaigns, currentTime, cfg)))[r] ==
      if r0 == r && Eligible(r, campaigns, currentTime, cfg) then 1 else 0
  {
    if Eligible(r0, campaigns, currentTime, cfg) {
      assert ReceiptsOf(Pick(r0, campaigns, currentTime, cfg)) == [r0];
    } else {
      assert ReceiptsOf(Pick(r0, campaigns, currentTime, cfg)) == [];
    }
  }

  /** A receipt whose campaign id matches no campaign contributes nothing. */
  lemma UnmatchedReceiptsContributeNothing(
    receipts: seq<DonationReceipt>, campaigns: seq<Campaign>, currentTime: int, cfg: Config, r: DonationReceipt)
    requires FindById(campaigns, r.campaignId).None?
    ensures r !in ReceiptsOf(Notifications(receipts, campaigns, currentTime, cfg))
  {
    NotificationsAreComplete(receipts, campaigns, currentTime, cfg, r);
  }

  predicate Distinct<T(==)>(s: seq<T>) {
    forall i, j | 0 <= i < j < |s| :: s[i] != s[j]
  }

  lemma {:induction false} DistinctOccursOnce<T>(s: seq<T>, x: T)
    requires Distinct(s) && x in s
    ensures multiset(s)[x] == 1
  {
    assert s == [s[0]] + s[1..];
    if s[0] == x {
      assert x !in s[1..];
    } else {
      DistinctOccursOnce(s[1..], x);
    }
  }

  /** With receipts that are all different, every receipt that calls for a vote appears exactly once. */
  lemma EligibleReceiptAppearsOnce(
    receipts: seq<DonationReceipt>, campaigns: seq<Campaign>, currentTime: int, cfg: Config, r: DonationReceipt)
    requires Distinct(receipts) && r in receipts && Eligible(r, campaigns, currentTime, cfg)
    ensures multiset(ReceiptsOf(Notifications(receipts, campaigns, currentTime, cfg)))[r] == 1
  {
    NotificationsAreComplete(receipts, campaigns, currentTime, cfg, r);
    DistinctOccursOnce(receipts, r);
  }

  /** The badge text: the count itself up to nine, "9+" above. */
  function BadgeLabel(notificationCount: nat): (r: string)
    ensures 1 <= |r| <= 2
  {
    if notificationCount > 9 then "9+" else NatToDecimal(notificationCount)
  }

  /** The badge reads "9+" exactly for counts above nine and otherwise shows the count as one digit. */
  lemma BadgeLabelShowsCount(notificationCount: nat)
    ensures BadgeLabel(notificationCount) == "9+" <==> notificationCount > 9
    ensures notificationCount <= 9 ==>
      |BadgeLabel(notificationCount)| == 1 && AllDigits(BadgeLabel(notificationCount)) &&
      DecimalValue(BadgeLabel(notificationCount)) == notificationCount
  {
    if notificationCount <= 9 {
      DecimalRoundTrip(notificationCount);
    }
  }
}
