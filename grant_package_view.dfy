/** The package-granting window's profile preview (moonlite/grant_package.py): a highlighted
    piece of the steamid box is looked up only when it is formatted as a STEAMID64, and the
    preview then shows the player's name and avatar, an error label, or the exception that
    interrupted the lookup. The two requests are inputs: the player-summary response, already
    parsed, and the avatar download. */
module GrantPackageView {
  import opened Wrappers
  import opened Errors
  import opened Text

  /** `highlighted and highlighted.isnumeric() and 17 <= len(highlighted) <= 20`. */
  predicate IsSteamId64(highlighted: string)
  {
    highlighted != "" && AllDigits(highlighted) && 17 <= |highlighted| <= 20
  }

  /** A digit string is worth less than 10 to the power of its length, and, without a leading
      zero, at least 10 to the power of its length minus one. */
  lemma {:induction false} DecimalValueBounds(s: string)
    requires forall i :: 0 <= i < |s| ==> IsDigit(s[i])
    ensures DecimalValue(s) < Pow10(|s|)
    ensures |s| > 0 && s[0] != '0' ==> Pow10(|s| - 1) <= DecimalValue(s)
    decreases |s|
  {
    if |s| > 0 {
      var init := s[..|s| - 1];
      DecimalValueBounds(init);
      if |init| == 0 {
        assert s == [s[0]];
      } else {
        assert init[0] == s[0];
      }
    }
  }

  /** Every number from 10^16 below 10^20, written out, is accepted. */
  lemma SteamId64OfNumber(n: nat)
    requires Pow10(16) <= n < Pow10(20)
    ensures IsSteamId64(NatToString(n))
  {
    NatToStringLength(n, 16);
    NatToStringLength(n, 20);
  }

  /** An accepted highlight without a leading zero is a number from 10^16 below 10^20. */
  lemma NumberOfSteamId64(s: string)
    requires IsSteamId64(s) && s[0] != '0'
    ensures Pow10(16) <= DecimalValue(s) < Pow10(20)
  {
    var v, n := DecimalValue(s), |s|;
    DecimalValueBounds(s);
    assert Pow10(n - 1) <= v < Pow10(n);
    PowMonotone(n, 20);
    PowMonotone(16, n - 1);
  }

  lemma {:induction false} PowMonotone(a: nat, b: nat)
    requires a <= b
    ensures Pow10(a) <= Pow10(b)
    decreases b - a
  {
    if a < b {
      PowMonotone(a, b - 1);
    }
  }

  /** One entry of the summary's `players` list, reduced to the two keys the preview reads. */
  datatype Player = Player(personaname: Option<string>, avatarmedium: Option<string>)

  /** What the preview frame shows. */
  datatype Preview =
    | Profile(name: string, avatar: seq<bv8>)
    | NotSteamId(highlighted: string)
    | Interrupted(e: Exc)

  /** `fetch_profile`. `summary` is the GetPlayerSummaries response: a failed request, or its
      `response.players` list (`None` when a key is missing, which reads as `[{}]`). `avatar`
      is the download of the avatar picture. The result also counts the requests made. */
  function FetchProfile(highlighted: string, summary: Result<Option<seq<Player>>, Exc>,
                        avatar: Result<seq<bv8>, Exc>): (r: (Preview, nat))
    ensures !IsSteamId64(highlighted) <==> r.0 == NotSteamId(highlighted)
    ensures !IsSteamId64(highlighted) ==> r.1 == 0
    ensures IsSteamId64(highlighted) ==> 1 <= r.1 <= 2
    ensures r.0.Profile? ==> r.1 == 2 && avatar.Success? && r.0.avatar == avatar.value
    ensures r.1 == 2 ==> summary.Success?
  {
    if !IsSteamId64(highlighted) then (NotSteamId(highlighted), 0)
    else
      match summary
      case Failure(e) => (Interrupted(e), 1)
      case Success(players) =>
        var list := if players.None? then [Player(None, None)] else players.value;
        if |list| == 0 then (Interrupted(IndexError), 1)
        else if list[0].personaname.None? || list[0].avatarmedium.None? then (Interrupted(KeyError), 1)
        else
          match avatar
          case Failure(e) => (Interrupted(e), 2)
          case Success(image) => (Profile(list[0].personaname.value, image), 2)
  }

  /** A STEAMID64 whose summary names the player and whose avatar downloads shows that player. */
  lemma ProfileShown(highlighted: string, player: Player, rest: seq<Player>, image: seq<bv8>)
    requires IsSteamId64(highlighted) && player.personaname.Some? && player.avatarmedium.Some?
    ensures FetchProfile(highlighted, Success(Some([player] + rest)), Success(image)).0
            == Profile(player.personaname.value, image)
  {
  }
}
