/**
 * The create/join form of the onboarding screen (`handleAction` in
 * client/src/components/OnboardingScreen.js): the username check, the word-list parser
 * and validator, the timer label, and the join tab's session-id check. Alerts and the
 * two callbacks become the values of `Outcome`.
 */
module Onboarding {
  import opened Wrappers
  import opened Text
  import opened Crossword

  /** What pressing the action button leads to: an alert, or one of the two requests. */
  datatype Outcome =
    | Alert(message: string)
    | CreateRequest(username: string, mode: string, words: seq<WordEntry>, timeLimit: Option<int>, numTeams: int)
    | JoinRequest(sessionId: string, username: string)

  /** `lines.filter(line => line.trim() !== '')`. */
  function NonBlank(lines: seq<string>): seq<string>
  {
    if lines == [] then []
    else (if Trim(lines[0]) != "" then [lines[0]] else []) + NonBlank(lines[1..])
  }

  /** The filter keeps exactly the lines that are not all white space, and never adds one. */
  lemma {:induction false} NonBlankKeeps(lines: seq<string>)
    ensures |NonBlank(lines)| <= |lines|
    ensures forall l :: l in NonBlank(lines) <==> l in lines && Trim(l) != ""
  {
    if lines != [] {
      var head := if Trim(lines[0]) != "" then [lines[0]] else [];
      NonBlankKeeps(lines[1..]);
      assert NonBlank(lines) == head + NonBlank(lines[1..]);
      assert forall l :: l in lines <==> l == lines[0] || l in lines[1..];
    }
  }

  /** A filter that drops nothing returns its input. */
  lemma {:induction false} NonBlankAll(lines: seq<string>)
    requires forall i :: 0 <= i < |lines| ==> Trim(lines[i]) != ""
    ensures NonBlank(lines) == lines
  {
    if lines != [] {
      NonBlankAll(lines[1..]);
    }
  }

  /**
   * One line of the list: `null` when it has no `|`, else the first field trimmed and
   * upper-cased as the word and the second field trimmed as the clue.
   */
  function ParseLine(line: string): (r: Option<WordEntry>)
  {
    var parts := Split(line, '|');
    if |parts| < 2 then None
    else Some(WordEntry(ToUpper(Trim(parts[0])), Trim(parts[1])))
  }

  /** A line parses exactly when it holds a `|`. */
  lemma ParseLineNeedsBar(line: string)
    ensures ParseLine(line).Some? <==> '|' in line
  {
    SplitHasSecond(line, '|');
  }

  /** `WORD|Clue` gives the trimmed, upper-cased word and the trimmed clue. */
  lemma WordAndClue(w: string, c: string)
    requires '|' !in w && '|' !in c
    ensures ParseLine(w + "|" + c) == Some(WordEntry(ToUpper(Trim(w)), Trim(c)))
  {
    assert Split(w + "|" + c, '|') == [w, c] by {
      SplitAfter(w, c, '|');
      SplitFirst(c, "", '|');
    }
  }

  /** Fields after a second `|` are ignored. */
  lemma ExtraFieldsIgnored(w: string, c: string, rest: string)
    requires '|' !in w && '|' !in c
    ensures ParseLine(w + "|" + c + "|" + rest) == Some(WordEntry(ToUpper(Trim(w)), Trim(c)))
  {
    SplitFirst(c, rest, '|');
    SplitAfter(w, c + "|" + rest, '|');
    assert w + "|" + c + "|" + rest == w + ['|'] + (c + "|" + rest);
    SplitAfter(c, rest, '|');
  }

  /** `xs.map(f)` followed by the `includes(null)` check: every result, or `None` when one is missing. */
  function MapAll<T>(xs: seq<string>, f: string -> Option<T>): Option<seq<T>>
  {
    if xs == [] then Some([])
    else
      var head := f(xs[0]);
      var tail := MapAll(xs[1..], f);
      if head.None? || tail.None? then None
      else Some([head.value] + tail.value)
  }

  /** The check passes exactly when no result is missing, and then keeps every result in order. */
  lemma {:induction false} MapAllItems<T>(xs: seq<string>, f: string -> Option<T>)
    ensures MapAll(xs, f).Some? <==> forall i :: 0 <= i < |xs| ==> f(xs[i]).Some?
    ensures MapAll(xs, f).Some? ==>
              && |MapAll(xs, f).value| == |xs|
              && forall i :: 0 <= i < |xs| ==> Some(MapAll(xs, f).value[i]) == f(xs[i])
  {
    if xs != [] {
      var rest := xs[1..];
      MapAllItems(rest, f);
      assert forall i :: 1 <= i < |xs| ==> xs[i] == rest[i - 1];
      if MapAll(xs, f).Some? {
        var r := MapAll(xs, f).value;
        assert r == [f(xs[0]).value] + MapAll(rest, f).value;
      } else if f(xs[0]).Some? {
        var i :| 0 <= i < |rest| && f(rest[i]).None?;
        assert f(xs[i + 1]).None?;
      }
    }
  }

  /** The parsed list: `None` when some line has no `|`. */
  function ParseAll(lines: seq<string>): Option<seq<WordEntry>>
  {
    MapAll(lines, ParseLine)
  }

  /**
   * A list parses exactly when every line holds a `|`, and then it holds, in order, what
   * each of its lines parses to.
   */
  lemma ParseAllItems(lines: seq<string>)
    ensures ParseAll(lines).Some? <==> forall i :: 0 <= i < |lines| ==> '|' in lines[i]
    ensures ParseAll(lines).Some? ==>
              && |ParseAll(lines).value| == |lines|
              && forall i :: 0 <= i < |lines| ==> Some(ParseAll(lines).value[i]) == ParseLine(lines[i])
  {
    MapAllItems(lines, ParseLine);
    forall i | 0 <= i < |lines| ensures ParseLine(lines[i]).Some? <==> '|' in lines[i] {
      ParseLineNeedsBar(lines[i]);
    }
  }

  /** `parseInt(label.split(' ')[0]) * 60`; `None` stands for `NaN`. */
  function TimerSeconds(timer: string): Option<int>
  {
    match ParseInt(Split(timer, ' ')[0])
    case None => None
    case Some(n) => Some(n * 60)
  }

  /** A label made of digits, a space and anything else gives that many minutes in seconds. */
  lemma MinutesLabel(d: string, rest: string)
    requires |d| >= 1 && AllDigits(d, 10)
    ensures TimerSeconds(d + " " + rest) == Some(ValueOf(d, 10) * 60)
  {
    assert ' ' !in d by {
      forall i | 0 <= i < |d| ensures d[i] != ' ' {
        assert IsDigit(d[i]);
      }
    }
    SplitFirst(d, rest, ' ');
    Unsigned(d);
    DecimalMagnitude(d);
  }

  /** The default label, "10 Minutes", gives 600 seconds. */
  lemma DefaultTimer()
    ensures TimerSeconds("10 Minutes") == Some(600)
  {
    assert "10 Minutes" == "10" + " " + "Minutes";
    DigitPair('1', '0');
    MinutesLabel("10", "Minutes");
  }

  /** The value of a two-digit numeral. */
  lemma DigitPair(a: char, b: char)
    requires IsDigit(a) && IsDigit(b)
    ensures AllDigits([a, b], 10) && ValueOf([a, b], 10) == 10 * DigitValue(a) + DigitValue(b)
  {
    assert DigitValue(a) < 10 && DigitValue(b) < 10;
    assert [a][..0] == [];
    assert ValueOf([a], 10) == DigitValue(a);
    assert [a, b][..1] == [a];
  }

  // The alerts' texts; the two count alerts end with the count and ')'.
  const NoUsername := "Please enter a username"
  const TooFew := "Please enter at least 5 words. (Current: "
  const TooMany := "Too many words! Max 30. (Current: "
  const BadFormat := "Invalid format. Use: WORD|Clue (check for missing |)"
  const NoSessionId := "Please enter a Session ID"

  /** `handleAction` on the given form state. */
  function HandleAction(tab: string, username: string, wordInput: string, timer: string, gameMode: string,
                        numTeams: int, sessionId: string): Outcome
  {
    if username == "" then Alert(NoUsername)
    else if tab == "CREATE" then Create(username, NonBlank(Split(wordInput, '\n')), timer, gameMode, numTeams)
    else JoinTab(sessionId, username)
  }

  /** The create tab once the blank lines are dropped: the count, then the format, is checked. */
  function Create(username: string, lines: seq<string>, timer: string, gameMode: string, numTeams: int): Outcome
  {
    if |lines| < 5 then Alert(TooFew + Show(|lines|) + ")")
    else if |lines| > 30 then Alert(TooMany + Show(|lines|) + ")")
    else
      match ParseAll(lines)
      case None => Alert(BadFormat)
      case Some(words) => CreateRequest(username, gameMode, words, TimerSeconds(timer), numTeams)
  }

  /** The join tab: an empty session id is refused. */
  function JoinTab(sessionId: string, username: string): Outcome
  {
    if sessionId == "" then Alert(NoSessionId) else JoinRequest(sessionId, username)
  }

  /** On the create tab a list is sent exactly when it has 5 to 30 non-blank lines, each holding a `|`. */
  lemma CreateAccepts(username: string, lines: seq<string>, timer: string, gameMode: string, numTeams: int)
    ensures Create(username, lines, timer, gameMode, numTeams).CreateRequest?
            <==> 5 <= |lines| <= 30 && forall i :: 0 <= i < |lines| ==> '|' in lines[i]
  {
    ParseAllItems(lines);
  }

  /**
   * A list that is sent is sent as one entry per non-blank line, in order, each what its
   * line parses to, with the timer's seconds and the chosen username, mode and team count.
   */
  lemma CreateSends(username: string, lines: seq<string>, timer: string, gameMode: string, numTeams: int)
    ensures var out := Create(username, lines, timer, gameMode, numTeams);
            out.CreateRequest? ==>
              && out.username == username && out.mode == gameMode && out.numTeams == numTeams
              && out.timeLimit == TimerSeconds(timer) && |out.words| == |lines|
              && forall i :: 0 <= i < |lines| ==> Some(out.words[i]) == ParseLine(lines[i])
  {
    var out := Create(username, lines, timer, gameMode, numTeams);
    if out.CreateRequest? {
      assert ParseAll(lines) == Some(out.words);
      ParseAllItems(lines);
    }
  }

  /**
   * A count outside 5 to 30 is refused with the count in the message, before the format is
   * looked at; a count in range with a line lacking `|` is refused as a bad format.
   */
  lemma CreateRefuses(username: string, lines: seq<string>, timer: string, gameMode: string, numTeams: int)
    ensures |lines| < 5 ==> Create(username, lines, timer, gameMode, numTeams) == Alert(TooFew + Show(|lines|) + ")")
    ensures |lines| > 30 ==> Create(username, lines, timer, gameMode, numTeams) == Alert(TooMany + Show(|lines|) + ")")
    ensures 5 <= |lines| <= 30 && (exists i :: 0 <= i < |lines| && '|' !in lines[i]) ==>
              Create(username, lines, timer, gameMode, numTeams) == Alert(BadFormat)
  {
    ParseAllItems(lines);
  }

  /** Nothing is sent without a username, a join needs a session id, and only the create tab creates. */
  lemma GuardsHold(tab: string, username: string, wordInput: string, timer: string, gameMode: string, numTeams: int, sessionId: string)
    ensures username == "" ==> HandleAction(tab, username, wordInput, timer, gameMode, numTeams, sessionId) == Alert(NoUsername)
    ensures var out := HandleAction(tab, username, wordInput, timer, gameMode, numTeams, sessionId);
            out.JoinRequest? ==> out == JoinRequest(sessionId, username) && tab != "CREATE" && sessionId != "" && username != ""
    ensures var out := HandleAction(tab, username, wordInput, timer, gameMode, numTeams, sessionId);
            out.CreateRequest? ==> tab == "CREATE" && out.username == username && username != ""
    ensures username != "" && tab != "CREATE" && sessionId == "" ==>
              HandleAction(tab, username, wordInput, timer, gameMode, numTeams, sessionId) == Alert(NoSessionId)
  {
    if username != "" && tab == "CREATE" {
      CreateSends(username, NonBlank(Split(wordInput, '\n')), timer, gameMode, numTeams);
    }
  }

  /** The line a player types for an entry. */
  function LineOf(e: WordEntry): string
  {
    e.word + "|" + e.clue
  }

  /** The typed lines of a list of entries, one per entry; the ensures is the element-wise definition. */
  function Lines(es: seq<WordEntry>): (lines: seq<string>)
    ensures |lines| == |es| && forall i :: 0 <= i < |es| ==> lines[i] == LineOf(es[i])
  {
    seq(|es|, i requires 0 <= i < |es| => LineOf(es[i]))
  }

  /** The text box holding one typed line per entry. */
  function Typed(es: seq<WordEntry>): string
    requires |es| >= 1
  {
    Join(Lines(es), '\n')
  }

  /** An entry that reads back as itself: its word is trimmed upper case, its clue trimmed, and neither holds `|` or a line break. */
  predicate Clean(e: WordEntry)
  {
    && '|' !in e.word && '|' !in e.clue && '\n' !in e.word && '\n' !in e.clue
    && Trim(e.word) == e.word && ToUpper(e.word) == e.word && Trim(e.clue) == e.clue
  }

  /** A clean entry's line holds one `|` and no line break, and is not blank. */
  lemma LineOfShape(e: WordEntry)
    requires Clean(e)
    ensures '\n' !in LineOf(e) && '|' in LineOf(e) && Trim(LineOf(e)) != ""
  {
    var line := LineOf(e);
    assert line[|e.word|] == '|';
    assert !IsSpace(line[|e.word|]);
    BlankIffAllSpace(line);
  }

  /** A clean entry's line parses back to the entry. */
  lemma LineOfParses(e: WordEntry)
    requires Clean(e)
    ensures ParseLine(LineOf(e)) == Some(e)
  {
    WordAndClue(e.word, e.clue);
  }

  /** The text box of clean entries splits, once blank lines are dropped, into their lines. */
  lemma TypedLines(es: seq<WordEntry>)
    requires |es| >= 1 && forall i :: 0 <= i < |es| ==> Clean(es[i])
    ensures NonBlank(Split(Typed(es), '\n')) == Lines(es)
  {
    var lines := Lines(es);
    forall i | 0 <= i < |es| ensures '\n' !in lines[i] && Trim(lines[i]) != "" {
      LineOfShape(es[i]);
    }
    JoinSplit(lines, '\n');
    NonBlankAll(lines);
  }

  /** The lines of clean entries parse back to the entries. */
  lemma ParseTyped(es: seq<WordEntry>)
    requires forall i :: 0 <= i < |es| ==> Clean(es[i])
    ensures ParseAll(Lines(es)) == Some(es)
  {
    var lines := Lines(es);
    forall i | 0 <= i < |es| ensures '|' in lines[i] && ParseLine(lines[i]) == Some(es[i]) {
      LineOfShape(es[i]);
      LineOfParses(es[i]);
    }
    ParseAllItems(lines);
    var ws := ParseAll(lines).value;
    forall i | 0 <= i < |es| ensures ws[i] == es[i] {
      assert Some(ws[i]) == ParseLine(lines[i]);
    }
    assert ws == es;
  }

  /** Typing 5 to 30 clean entries, one per line, creates a session with exactly those entries. */
  lemma TypedListRoundTrip(username: string, es: seq<WordEntry>, timer: string, gameMode: string, numTeams: int, sessionId: string)
    requires username != "" && 5 <= |es| <= 30 && forall i :: 0 <= i < |es| ==> Clean(es[i])
    ensures HandleAction("CREATE", username, Typed(es), timer, gameMode, numTeams, sessionId)
            == CreateRequest(username, gameMode, es, TimerSeconds(timer), numTeams)
  {
    TypedLines(es);
    ParseTyped(es);
    var lines := NonBlank(Split(Typed(es), '\n'));
    assert HandleAction("CREATE", username, Typed(es), timer, gameMode, numTeams, sessionId)
           == Create(username, lines, timer, gameMode, numTeams);
    assert ParseAll(lines) == Some(es);
  }
}
