/** The compact leaderboard row: rank dot and a two-colour bar splitting
    the trader's share of the total between CHZ and the base token. Its name
    is `Display.DisplayName`. */
module MinimalLeaderboardEntry {
  import opened Types
  import opened Display

  /** The dot colours of `getRankColor`. */
  const RankDots: RankPalette := RankPalette("bg-yellow-500", "bg-gray-400", "bg-amber-600", "bg-gray-600", "bg-gray-400")

  /** Off the podium the colour depends on the theme only; in the light
      theme it is the same grey as rank 2. */
  lemma RankColorOffPodium(a: int, b: int, isDarkMode: bool)
    requires !(1 <= a <= 3) && !(1 <= b <= 3)
    ensures RankColor(a, isDarkMode, RankDots) == RankColor(b, isDarkMode, RankDots)
    ensures RankColor(a, false, RankDots) == RankColor(2, false, RankDots)
    ensures RankColor(a, true, RankDots) != RankColor(2, true, RankDots)
  {
  }

  /** `totalPercentage`: the trader's combined share. For shares that are
      not negative it bounds each of them and is zero only when both are;
      `BarWidths` and `BarSplitProportional` state what it is used for. */
  function TotalPercentage(share: Share): (r: real)
    ensures share.chz >= 0.0 && share.token >= 0.0 ==>
              share.chz <= r && share.token <= r && (r == 0.0 <==> share.chz == 0.0 && share.token == 0.0)
  {
    share.chz + share.token
  }

  /** The two bar widths, each share over `Math.max(totalPercentage, 1)`. */
  function BarWidths(share: Share): (r: (real, real))
    ensures var total := TotalPercentage(share);
            total >= 1.0 ==> r.0 + r.1 == 100.0
    ensures share.chz >= 0.0 && share.token >= 0.0 ==> 0.0 <= r.0 && 0.0 <= r.1 && r.0 + r.1 <= 100.0
    ensures share.chz + share.token < 1.0 ==> r.0 + r.1 == (share.chz + share.token) * 100.0
  {
    var total := TotalPercentage(share);
    var divisor := if total > 1.0 then total else 1.0;
    (share.chz / divisor * 100.0, share.token / divisor * 100.0)
  }

  /** The split keeps the ratio of the shares: CHZ's part of the bar is to
      the token's part as the CHZ share is to the token share. */
  lemma BarSplitProportional(share: Share)
    ensures BarWidths(share).0 * share.token == BarWidths(share).1 * share.chz
  {
    var total := TotalPercentage(share);
    var d := if total > 1.0 then total else 1.0;
    assert BarWidths(share).0 * d == share.chz * 100.0;
    assert BarWidths(share).1 * d == share.token * 100.0;
  }
}
