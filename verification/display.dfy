/** Text shown for an address or a trader, shared by the leaderboard rows,
    the swap feed and the transaction list. */
module Display {
  import opened Base
  import opened JsStrings
  import opened Types

  /** The first six characters, an ellipsis and the last four. */
  function ShortenAddress(a: string): (r: string)
    ensures var p := if |a| < 6 then |a| else 6;
            var q := if |a| < 4 then |a| else 4;
            |r| == p + 3 + q && r[..p] == a[..p] && r[p..p + 3] == "..."
            && r[p + 3..] == a[|a| - q..]
  {
    Slice(a, 0, 6) + "..." + SliceFrom(a, -4)
  }

  /** A full-length address shortens to thirteen characters: "0x1234...abcd". */
  lemma ShortAddressLength(a: string)
    requires |a| >= 10
    ensures |ShortenAddress(a)| == 13
    ensures ShortenAddress(a) == a[..6] + "..." + a[|a| - 4..]
  {
  }

  /** `slice` never fails on a short address: one of at most four
      characters shows on both sides of the ellipsis. */
  lemma ShortAddressShownTwice(a: string)
    requires |a| <= 4
    ensures ShortenAddress(a) == a + "..." + a
  {
  }

  /** The nickname when it is present and non-empty, otherwise the shortened
      address (JavaScript's `||` treats the empty string as missing). */
  function DisplayName(e: Entry): (r: string)
    ensures e.nickname.Some? && e.nickname.value != "" ==> r == e.nickname.value
    ensures (e.nickname.None? || e.nickname.value == "") ==> r == ShortenAddress(e.address)
  {
    match e.nickname
    case Some(n) => if n != "" then n else ShortenAddress(e.address)
    case None => ShortenAddress(e.address)
  }

  /** A trader without a nickname is shown by thirteen characters of a
      full-length address; the name is never empty, since the ellipsis
      shows even for an empty address. */
  lemma AnonymousTraderName(e: Entry)
    requires e.nickname.None? || e.nickname.value == ""
    ensures |DisplayName(e)| >= 3
    ensures e.address == "" ==> DisplayName(e) == "..."
    ensures |e.address| >= 10 ==>
              |DisplayName(e)| == 13 && DisplayName(e)[..6] == e.address[..6]
              && DisplayName(e)[9..] == e.address[|e.address| - 4..]
  {
    if |e.address| >= 10 {
      ShortAddressLength(e.address);
    }
  }

  /** The colours a `getRankColor` hands out: one per podium place, then one
      for every other rank in each theme. */
  datatype RankPalette = RankPalette(first: string, second: string, third: string, dark: string, light: string)

  /** `getRankColor` over a palette: a podium rank gets its own colour in
      either theme, and any other rank, zero and negative ones included, gets
      the theme's colour. */
  function RankColor(rank: int, isDarkMode: bool, p: RankPalette): (r: string)
    ensures 1 <= rank <= 3 ==> r == [p.first, p.second, p.third][rank - 1]
    ensures !(1 <= rank <= 3) ==> r == (if isDarkMode then p.dark else p.light)
  {
    if rank == 1 then p.first
    else if rank == 2 then p.second
    else if rank == 3 then p.third
    else if isDarkMode then p.dark
    else p.light
  }
}
