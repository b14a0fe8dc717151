/** The explore page's campaign filter: a category chip and a free-text search box. */
module ExplorePage {
  import opened Text
  import opened CampaignState
  import opened Subsequences

  /** Whether the category chip lets the campaign through: "all" lets every campaign through. */
  predicate MatchesFilter(c: Campaign, filter: string) {
    filter == "all" || c.category == filter
  }

  /** Whether the title or the description contains the query, ignoring letter case. */
  predicate MatchesSearch(c: Campaign, searchQuery: string) {
    Includes(ToLower(c.title), ToLower(searchQuery)) ||
    Includes(ToLower(c.description), ToLower(searchQuery))
  }

  predicate Keep(c: Campaign, filter: string, searchQuery: string) {
    MatchesFilter(c, filter) && MatchesSearch(c, searchQuery)
  }

  /** `campaigns.filter(...)`: the campaigns kept, in their original order. */
  function FilteredCampaigns(campaigns: seq<Campaign>, filter: string, searchQuery: string): (r: seq<Campaign>)
    ensures |r| <= |campaigns|
    ensures forall x | x in r :: x in campaigns && Keep(x, filter, searchQuery)
  {
    if campaigns == [] then
      []
    else
      var head := if Keep(campaigns[0], filter, searchQuery) then [campaigns[0]] else [];
      head + FilteredCampaigns(campaigns[1..], filter, searchQuery)
  }

  /** The result keeps the input's order and leaves elements out, nothing more. */
  lemma {:induction false} FilteredIsSubsequence(campaigns: seq<Campaign>, filter: string, searchQuery: string)
    ensures IsSubsequence(FilteredCampaigns(campaigns, filter, searchQuery), campaigns)
    ensures |FilteredCampaigns(campaigns, filter, searchQuery)| <= |campaigns|
  {
    if campaigns != [] {
      var rest := FilteredCampaigns(campaigns[1..], filter, searchQuery);
      FilteredIsSubsequence(campaigns[1..], filter, searchQuery);
      if !Keep(campaigns[0], filter, searchQuery) && rest != [] {
        assert FilteredCampaigns(campaigns, filter, searchQuery) == rest;
        SubsequenceOfTail(rest, campaigns);
      } else if Keep(campaigns[0], filter, searchQuery) {
        assert ([campaigns[0]] + rest)[1..] == rest;
      }
    }
  }

  /** Every campaign that matches is kept as many times as it occurs, and no other is. */
  lemma {:induction false} FilteredKeepsExactlyTheMatches(campaigns: seq<Campaign>, filter: string, searchQuery: string, c: Campaign)
    ensures multiset(FilteredCampaigns(campaigns, filter, searchQuery))[c] ==
      if Keep(c, filter, searchQuery) then multiset(campaigns)[c] else 0
  {
    if campaigns != [] {
      FilteredKeepsExactlyTheMatches(campaigns[1..], filter, searchQuery, c);
      assert campaigns == [campaigns[0]] + campaigns[1..];
    }
  }

  /** Soundness and completeness: a campaign is in the result exactly when it is in the
      input, its category passes the chip, and its title or description contains the query
      in any letter case. */
  lemma FilteredMembership(campaigns: seq<Campaign>, filter: string, searchQuery: string, c: Campaign)
    ensures c in FilteredCampaigns(campaigns, filter, searchQuery) <==>
      c in campaigns && (filter == "all" || c.category == filter) &&
      (OccursIn(ToLower(searchQuery), ToLower(c.title)) || OccursIn(ToLower(searchQuery), ToLower(c.description)))
  {
    FilteredKeepsExactlyTheMatches(campaigns, filter, searchQuery, c);
    IncludesIff(ToLower(c.title), ToLower(searchQuery));
    IncludesIff(ToLower(c.description), ToLower(searchQuery));
  }

  /** An empty query lets every campaign of the chosen category through: the result is
      the campaigns whose category passes the chip, in order; with "all" the list comes
      back unchanged. */
  lemma {:induction false} EmptyQueryKeepsCategory(campaigns: seq<Campaign>, filter: string)
    ensures FilteredCampaigns(campaigns, filter, "") == CategoryOnly(campaigns, filter)
    ensures FilteredCampaigns(campaigns, "all", "") == campaigns
  {
    if campaigns != [] {
      EmptyQueryKeepsCategory(campaigns[1..], filter);
    }
  }

  /** The campaigns the category chip alone lets through, in order. */
  function CategoryOnly(campaigns: seq<Campaign>, filter: string): seq<Campaign> {
    if campaigns == [] then
      []
    else
      var head := if MatchesFilter(campaigns[0], filter) then [campaigns[0]] else [];
      head + CategoryOnly(campaigns[1..], filter)
  }

  /** The query's letter case does not matter: queries equal after lower-casing select the same campaigns. */
  lemma {:induction false} SearchIsCaseInsensitive(campaigns: seq<Campaign>, filter: string, q1: string, q2: string)
    requires ToLower(q1) == ToLower(q2)
    ensures FilteredCampaigns(campaigns, filter, q1) == FilteredCampaigns(campaigns, filter, q2)
  {
    if campaigns != [] {
      SearchIsCaseInsensitive(campaigns[1..], filter, q1, q2);
    }
  }
}
