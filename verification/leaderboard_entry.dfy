/** One expandable leaderboard card: rank and tier badges, the volume bars
    and the expand/copy interaction. */
module LeaderboardEntry {
  import opened Base
  import opened Types
  import opened Display

  /** The gradients of `getRankColor`. */
  const RankGradients: RankPalette := RankPalette(
    "from-yellow-400 to-yellow-600", "from-gray-300 to-gray-500", "from-amber-400 to-amber-600",
    "from-gray-600 to-gray-700", "from-gray-200 to-gray-400")

  /** The three podium ranks and the rest are told apart in either theme,
      and off the podium only the theme matters. */
  lemma RankColorsDistinct(a: int, b: int, isDarkMode: bool)
    ensures (1 <= a <= 3 || 1 <= b <= 3) ==>
              (RankColor(a, isDarkMode, RankGradients) == RankColor(b, isDarkMode, RankGradients) <==> a == b)
    ensures !(1 <= a <= 3) && !(1 <= b <= 3) ==>
              RankColor(a, isDarkMode, RankGradients) == RankColor(b, isDarkMode, RankGradients)
  {
  }

  /** The `colors` table of `getTierColor`. */
  const TierColors: map<string, string> := map[
    "bronze" := "from-amber-600 to-amber-800",
    "silver" := "from-gray-400 to-gray-600",
    "gold" := "from-yellow-400 to-yellow-600",
    "platinum" := "from-blue-400 to-blue-600",
    "diamond" := "from-purple-400 to-purple-600"]

  /** `getTierColor`: the table entry, or the fallback for an unknown tier. */
  function TierColor(tier: string): (r: string)
    ensures tier in TierColors ==> r == TierColors[tier]
    ensures tier !in TierColors ==> r == "from-gray-400 to-gray-600"
  {
    if tier in TierColors && TierColors[tier] != "" then TierColors[tier] else "from-gray-400 to-gray-600"
  }

  /** The five tiers get five different gradients, and an unknown tier looks
      exactly like silver. */
  lemma TierColorsDistinct(a: string, b: string)
    requires a in TierColors && b in TierColors
    ensures TierColor(a) == TierColor(b) <==> a == b
  {
  }

  lemma UnknownTierLooksSilver(tier: string)
    ensures TierColor(tier) == TierColor("silver") <==> tier == "silver" || tier !in TierColors
  {
  }

  /** `getProgressWidth`: `Math.min(100, value / (total || 1) * 100)`. */
  function ProgressWidth(value: real, total: real): (r: real)
    ensures r <= 100.0
    ensures value >= 0.0 && total >= 0.0 ==> r >= 0.0
    ensures total > 0.0 && value <= total ==> r * total == value * 100.0
    ensures total > 0.0 ==> (r == 100.0 <==> value >= total)
    ensures total == 0.0 ==> r == if value * 100.0 < 100.0 then value * 100.0 else 100.0
  {
    var divisor := if total != 0.0 then total else 1.0;
    var w := value / divisor * 100.0;
    if w < 100.0 then w else 100.0
  }

  /** A larger volume never gets a shorter bar. */
  lemma ProgressWidthMonotonic(a: real, b: real, total: real)
    requires a <= b && total >= 0.0
    ensures ProgressWidth(a, total) <= ProgressWidth(b, total)
  {
    var d := if total != 0.0 then total else 1.0;
    DivideMonotonic(a, b, d);
  }

  lemma DivideMonotonic(a: real, b: real, d: real)
    requires a <= b && d > 0.0
    ensures a / d <= b / d
  {
    assert b / d - a / d == (b - a) / d;
  }

  /** A click on the card or on its copy button. */
  datatype Click = CardClick | CopyClick

  /** The card's `isExpanded` after a click, and the text copied: the copy
      button stops propagation, so it copies and leaves the card alone. */
  function HandleClick(isExpanded: bool, click: Click, e: Entry): (r: (bool, Option<string>))
    ensures click == CardClick ==> r.0 != isExpanded && r.1.None?
    ensures click == CopyClick ==> r.0 == isExpanded && r.1 == Some(e.address)
  {
    match click
    case CardClick => (!isExpanded, None)
    case CopyClick => (isExpanded, Some(e.address))
  }

  /** Two clicks on the card restore it, whatever copies happen between. */
  lemma CardClickTwice(isExpanded: bool, e: Entry)
    ensures HandleClick(HandleClick(isExpanded, CardClick, e).0, CardClick, e).0 == isExpanded
    ensures HandleClick(HandleClick(isExpanded, CopyClick, e).0, CardClick, e).0 != isExpanded
  {
  }
}
