/**
 * The arithmetic of the in-game screen (client/src/components/GameScreen.js): the clock
 * text `formatTime`, the hint counter a game tick leaves on screen, and the hints-left
 * figure shown in the header.
 */
module GameScreen {
  import opened Wrappers
  import opened Text
  import opened Game
  import Sessions

  /**
   * `formatTime(seconds)`: `Math.floor(seconds / 60)` and `seconds % 60`, each printed and
   * padded, joined by ':'. Dafny's `/` floors for a positive divisor, as `Math.floor` does;
   * JavaScript's `%` keeps the sign of `seconds`.
   */
  function FormatTime(seconds: int): string
  {
    Field(seconds / 60) + ":" + Field(Rem(seconds, 60))
  }

  /** `n.toString().padStart(2, '0')`. */
  function Field(n: int): string
  {
    PadStart(ShowInt(n), 2, '0')
  }

  /** Numbers below 100 print with at most two digits. */
  lemma ShowBelowHundred(n: nat)
    requires n < 100
    ensures |Show(n)| <= 2
  {
    if n >= 10 {
      assert Show(n) == Show(n / 10) + [DigitChar(n % 10)];
    }
  }

  /**
   * A field of a non-negative number holds digits only, reads back as the number, is two
   * characters long unless the number needs more, and ends with all of the number's digits.
   */
  lemma FieldOf(n: nat)
    ensures var f := Field(n);
            && AllDigits(f, 10) && ValueOf(f, 10) == n
            && |f| == (if n < 10 then 2 else |Show(n)|)
            && f[|f| - |Show(n)|..] == Show(n)
  {
    ShowValue(n);
    ShowLength(n);
    if |Show(n)| < 2 {
      LeadingZeros(2 - |Show(n)|, Show(n));
    }
  }

  /** A text ending in ':' and two characters splits back into its two parts. */
  lemma Halves(m: string, s: string)
    requires |s| == 2
    ensures var t := m + ":" + s;
            |t| == |m| + 3 && t[|t| - 3] == ':' && t[..|t| - 3] == m && t[|t| - 2..] == s
  {
  }

  /**
   * For a non-negative time the clock reads the minutes field, ':', the seconds field: the
   * seconds field is the two-character field of `seconds % 60`, the minutes field the field
   * of `seconds / 60`, at least two characters long (`FieldOf` says what a field holds).
   */
  lemma FormatTimeFields(seconds: nat)
    ensures FormatTime(seconds) == Field(seconds / 60) + ":" + Field(seconds % 60)
    ensures |Field(seconds % 60)| == 2 && |Field(seconds / 60)| >= 2
  {
    var secs: nat := seconds % 60;
    assert Rem(seconds, 60) == secs;
    FieldOf(secs);
    ShowBelowHundred(secs);
  }

  /** Different non-negative times show different clocks. */
  lemma FormatTimeInjective(a: nat, b: nat)
    ensures FormatTime(a) == FormatTime(b) ==> a == b
  {
    if FormatTime(a) == FormatTime(b) {
      var ma: nat, sa: nat, mb: nat, sb: nat := a / 60, a % 60, b / 60, b % 60;
      assert Field(ma) + ":" + Field(sa) == Field(mb) + ":" + Field(sb) && |Field(sa)| == 2 && |Field(sb)| == 2 by {
        FormatTimeFields(a);
        FormatTimeFields(b);
      }
      assert Field(ma) == Field(mb) && Field(sa) == Field(sb) by {
        Halves(Field(ma), Field(sa));
        Halves(Field(mb), Field(sb));
      }
      FieldInjective(ma, mb);
      FieldInjective(sa, sb);
      DivMod(a, b);
    }
  }

  /** Different non-negative numbers have different fields. */
  lemma FieldInjective(m: nat, n: nat)
    requires Field(m) == Field(n)
    ensures m == n
  {
    FieldOf(m);
    FieldOf(n);
  }

  /** A time is its minutes and seconds. */
  lemma DivMod(a: nat, b: nat)
    requires a / 60 == b / 60 && a % 60 == b % 60
    ensures a == b
  {
    assert a == 60 * (a / 60) + a % 60;
    assert b == 60 * (b / 60) + b % 60;
  }

  /**
   * The hint counter after an `EVT_GAME_TICK`: when the tick carries counts and the screen
   * knows its player id (`null` and `''` are falsy), `data.hintsUsed[playerId] || 0`;
   * otherwise the counter stays as it was.
   */
  function HintsUsedAfterTick(shown: int, counts: Option<map<string, int>>, playerId: Option<string>): int
  {
    if counts.Some? && playerId.Some? && playerId.value != "" then Get(counts.value, playerId.value)
    else shown
  }

  /**
   * A tick from the game manager sets the counter to the server's count for this player,
   * 0 for one who never asked, whatever was shown before; a tick without counts or a screen
   * without a player id leaves it alone.
   */
  lemma TickShowsServerCount(shown: int, p: Play, playerId: string)
    requires playerId != ""
    ensures HintsUsedAfterTick(shown, Some(p.hintsUsed), Some(playerId)) == Get(p.hintsUsed, playerId)
    ensures playerId !in p.hintsUsed ==> HintsUsedAfterTick(shown, Some(p.hintsUsed), Some(playerId)) == 0
    ensures HintsUsedAfterTick(shown, None, Some(playerId)) == shown
    ensures forall c :: HintsUsedAfterTick(shown, c, None) == shown
  {
  }

  /** `(sessionData?.settings?.hintLimit || 20) - hintsUsed`; a missing session or limit is `None`. */
  function HintsLeft(hintLimit: Option<int>, hintsUsed: int): int
  {
    Sessions.NumberOr(hintLimit, 20) - hintsUsed
  }

  /**
   * The screen's fallback of 20 is the server's default: the hints left shown from a
   * session's settings are its recorded limit minus the count, and equal what the option
   * the host gave (or left out) would show directly.
   */
  lemma HintsLeftFromSettings(o: Sessions.Options, hintsUsed: int)
    ensures var limit := Sessions.SettingsOf(o).hintLimit;
            && HintsLeft(Some(limit), hintsUsed) == limit - hintsUsed
            && HintsLeft(Some(limit), hintsUsed) == HintsLeft(o.hintLimit, hintsUsed)
  {
    Sessions.SettingsDefaults(o);
  }

  /**
   * Under the default limit the header never shows a negative count: the server stops
   * giving hints at its cap of 20, so a tick's count for any player lies in 0..20.
   */
  lemma DefaultHintsLeftInRange(shown: int, counts: map<string, int>, playerId: string)
    requires playerId != ""
    requires forall k :: k in counts ==> 0 <= counts[k] <= HintCap
    ensures 0 <= HintsLeft(None, HintsUsedAfterTick(shown, Some(counts), Some(playerId))) <= HintCap
  {
  }
}
