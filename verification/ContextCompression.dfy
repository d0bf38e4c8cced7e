/** Replacing the older messages of a thread by a summary. */
module ContextCompression {
  import opened Strings

  datatype Role = Human | Assistant | System | Tool

  // A message without an id has the empty one; `flagged` is the mark of a compressed context.
  datatype Message = Message(role: Role, text: string, id: string, flagged: bool)

  type Positive = n: nat | n > 0 witness 1

  datatype Settings = Settings(
    enabled: bool,
    triggerTokens: int,
    keepRecentTurns: nat,
    maxOutputTokens: nat,
    maxPrefaceChars: Positive)

  datatype Reason = Disabled | BelowThreshold | TooFewMessages | MissingMessageIds | ThresholdReached

  datatype Plan = Plan(shouldCompress: bool, reason: Reason, retained: seq<Message>, compressible: seq<Message>)

  const MARKER := "[SmartClass compressed thread context]"
  const NOTICE := "This system message is hidden from the teacher-facing chat UI and is used only as future model context."
  const STATE_HEADER := "# Structured SmartClass State"
  const HISTORY_HEADER := "# Compressed Conversation History"
  const NO_STATE := "No structured SmartClass state is currently available."
  const NO_SUMMARY := "No older conversation summary was produced."
  const TRUNCATED := "\n...[truncated]"

  const ROLE_OVERHEAD: nat := 8
  const CHAR_TOKEN_RATIO: nat := 4

  // ----- The estimate

  function TotalChars(messages: seq<Message>): nat {
    if messages == [] then 0 else ROLE_OVERHEAD + |messages[0].text| + TotalChars(messages[1..])
  }

  // Rounded up, and at least one.
  function Tokens(chars: nat): nat {
    var t := (chars + CHAR_TOKEN_RATIO - 1) / CHAR_TOKEN_RATIO;
    if t < 1 then 1 else t
  }

  lemma {:induction false} TotalCharsAppend(x: seq<Message>, y: seq<Message>)
    ensures TotalChars(x + y) == TotalChars(x) + TotalChars(y)
  {
    if x == [] {
      assert x + y == y;
    } else {
      TotalCharsAppend(x[1..], y);
      assert (x + y)[1..] == x[1..] + y;
    }
  }

  function Texts(messages: seq<Message>): string {
    if messages == [] then "" else messages[0].text + Texts(messages[1..])
  }

  // Eight characters a message, and all the texts.
  lemma {:induction false} TotalCharsIs(messages: seq<Message>)
    ensures TotalChars(messages) == 8 * |messages| + |Texts(messages)|
  {
    if messages != [] {
      TotalCharsIs(messages[1..]);
    }
  }

  method EstimateMessageTokens(messages: seq<Message>) returns (tokens: nat)
    ensures tokens == Tokens(TotalChars(messages)) && tokens >= 1
    ensures CHAR_TOKEN_RATIO * (tokens - 1) <= TotalChars(messages) <= CHAR_TOKEN_RATIO * tokens
  {
    var totalChars: nat := 0;
    for n := 0 to |messages|
      invariant totalChars == TotalChars(messages[..n])
    {
      totalChars := totalChars + ROLE_OVERHEAD + |messages[n].text|;
      TotalCharsAppend(messages[..n], [messages[n]]);
      assert messages[..n + 1] == messages[..n] + [messages[n]];
    }
    assert messages[..|messages|] == messages;
    tokens := (totalChars + CHAR_TOKEN_RATIO - 1) / CHAR_TOKEN_RATIO;
    if tokens < 1 {
      tokens := 1;
    }
  }

  // ----- The split

  predicate IsCompressedContext(m: Message) {
    m.role.System? && (m.flagged || MARKER <= LeftStripped(m.text))
  }

  predicate StartsTurn(m: Message) {
    m.role.Human? && !IsCompressedContext(m)
  }

  // The positions of the messages that start a turn, the first of them numbered `from`.
  function TurnStarts(messages: seq<Message>, from: nat): seq<nat> {
    if messages == [] then []
    else (if StartsTurn(messages[0]) then [from] else []) + TurnStarts(messages[1..], from + 1)
  }

  function Turns(messages: seq<Message>): nat {
    if messages == [] then 0 else (if StartsTurn(messages[0]) then 1 else 0) + Turns(messages[1..])
  }

  // human_indexes[-keep]; minus zero is zero.
  function RecentTurnCutoff(messages: seq<Message>, keep: nat): nat {
    var starts := TurnStarts(messages, 0);
    if |starts| <= keep then 0 else starts[if keep == 0 then 0 else |starts| - keep]
  }

  function BuildPlan(messages: seq<Message>, settings: Settings, estimated: int): Plan {
    if !settings.enabled then Plan(false, Disabled, [], [])
    else if estimated < settings.triggerTokens then Plan(false, BelowThreshold, [], [])
    else
      var cutoff := RecentTurnCutoff(messages, settings.keepRecentTurns);
      TurnStartsSound(messages, 0);
      if cutoff == 0 then Plan(false, TooFewMessages, [], [])
      else
        var compressible, retained := messages[..cutoff], messages[cutoff..];
        if exists m :: m in messages && m.id == "" then Plan(false, MissingMessageIds, retained, compressible)
        else Plan(true, ThresholdReached, retained, compressible)
  }

  // The k-th turn start is a message that starts a turn, and k turns come before it.
  predicate IsTurnStart(messages: seq<Message>, from: nat, i: nat, k: nat) {
    from + k <= i < from + |messages| && StartsTurn(messages[i - from])
    && Turns(messages[i - from..]) == Turns(messages) - k
  }

  lemma {:induction false} TurnStartsSound(messages: seq<Message>, from: nat)
    ensures |TurnStarts(messages, from)| == Turns(messages)
    ensures forall k | 0 <= k < |TurnStarts(messages, from)| :: IsTurnStart(messages, from, TurnStarts(messages, from)[k], k)
  {
    if messages != [] {
      TurnStartsSound(messages[1..], from + 1);
      var rest, starts := TurnStarts(messages[1..], from + 1), TurnStarts(messages, from);
      var own := if StartsTurn(messages[0]) then 1 else 0;
      forall k | 0 <= k < |starts|
        ensures IsTurnStart(messages, from, starts[k], k)
      {
        if k < own {
          assert messages[0..] == messages;
        } else {
          assert starts[k] == rest[k - own];
          TurnStartShifts(messages, from, rest[k - own], k - own);
        }
      }
    }
  }

  lemma TurnStartShifts(messages: seq<Message>, from: nat, i: nat, k: nat)
    requires messages != [] && IsTurnStart(messages[1..], from + 1, i, k)
    ensures IsTurnStart(messages, from, i, k + if StartsTurn(messages[0]) then 1 else 0)
  {
    assert messages[1..][i - from - 1..] == messages[i - from..];
  }

  // A plan to compress splits the thread in two: the older messages, and what starts with the
  // last `keepRecentTurns`-th message of the teacher. Both parts have messages.
  lemma PlanSplits(messages: seq<Message>, settings: Settings, estimated: int)
    requires settings.keepRecentTurns >= 1
    ensures var p := BuildPlan(messages, settings, estimated);
            p.shouldCompress ==>
              && messages == p.compressible + p.retained && p.compressible != [] && p.retained != []
              && StartsTurn(p.retained[0]) && Turns(p.retained) == settings.keepRecentTurns
  {
    TurnStartsSound(messages, 0);
  }

  // When a thread is compressed.
  lemma CompressesWhen(messages: seq<Message>, settings: Settings, estimated: int)
    requires settings.keepRecentTurns >= 1
    ensures BuildPlan(messages, settings, estimated).shouldCompress <==>
            && settings.enabled && estimated >= settings.triggerTokens
            && Turns(messages) > settings.keepRecentTurns
            && forall m | m in messages :: m.id != ""
  {
    TurnStartsSound(messages, 0);
  }

  // Why it is not.
  lemma ReasonTells(messages: seq<Message>, settings: Settings, estimated: int)
    requires settings.keepRecentTurns >= 1
    ensures BuildPlan(messages, settings, estimated).reason ==
            if !settings.enabled then Disabled
            else if estimated < settings.triggerTokens then BelowThreshold
            else if Turns(messages) <= settings.keepRecentTurns then TooFewMessages
            else if exists m | m in messages :: m.id == "" then MissingMessageIds
            else ThresholdReached
  {
    TurnStartsSound(messages, 0);
  }

  // ----- The summary message

  function Truncated(value: string, limit: nat): (r: string)
    ensures |r| <= limit + |TRUNCATED|
    ensures |Stripped(value)| <= limit ==> r == Stripped(value)
  {
    var normalized := Stripped(value);
    if |normalized| <= limit then normalized else RightStripped(normalized[..limit]) + TRUNCATED
  }

  // A value that is too long is cut at the limit, white space before the cut is dropped, and the
  // notice says so.
  lemma TruncatedCuts(value: string, limit: nat) returns (kept: string, dropped: string)
    requires |Stripped(value)| > limit
    ensures Truncated(value, limit) == kept + TRUNCATED
    ensures Stripped(value)[..limit] == kept + dropped && IsBlank(dropped)
    ensures kept != "" ==> !IsSpace(kept[|kept| - 1])
  {
    kept := RightStripped(Stripped(value)[..limit]);
    dropped := RightStrippedExactly(Stripped(value)[..limit]);
  }

  predicate Holds(text: string, part: string) {
    exists i :: 0 <= i <= |text| && part <= text[i..]
  }

  predicate EndsWith(text: string, part: string) {
    |part| <= |text| && text[|text| - |part|..] == part
  }

  lemma HoldsPart(a: string, part: string, b: string)
    ensures Holds(a + part + b, part)
  {
    assert (a + part + b)[|a|..] == part + b;
  }

  lemma HoldsMore(text: string, part: string, before: string)
    requires Holds(text, part)
    ensures Holds(before + text, part)
  {
    var i :| 0 <= i <= |text| && part <= text[i..];
    assert (before + text)[|before| + i..] == text[i..];
  }

  lemma {:induction false} JoinedHolds(sections: seq<string>)
    ensures forall section | section in sections :: Holds(Joined(sections), section)
  {
    if |sections| == 1 {
      HoldsPart("", sections[0], "");
      assert "" + sections[0] + "" == sections[0];
    } else if sections != [] {
      var rest := Joined(sections[1..]);
      JoinedHolds(sections[1..]);
      HoldsPart("", sections[0], "\n\n" + rest);
      assert "" + sections[0] + ("\n\n" + rest) == sections[0] + "\n\n" + rest;
      forall section | section in sections[1..]
        ensures Holds(Joined(sections), section)
      {
        HoldsMore(rest, section, sections[0] + "\n\n");
      }
    }
  }

  function Joined(sections: seq<string>): string {
    if sections == [] then "" else if |sections| == 1 then sections[0] else sections[0] + "\n\n" + Joined(sections[1..])
  }

  function Preface(sections: seq<string>, settings: Settings): string {
    if sections == [] then NO_STATE else Truncated(Joined(sections), settings.maxPrefaceChars)
  }

  function Ending(summary: string, settings: Settings): string {
    var normalized := Truncated(Stripped(summary), settings.maxOutputTokens * CHAR_TOKEN_RATIO);
    if normalized == "" then NO_SUMMARY else normalized
  }

  function Layout(preface: string, ending: string): string {
    MARKER + "\n" + NOTICE + "\n\n" + STATE_HEADER + "\n" + preface + "\n\n" + HISTORY_HEADER + "\n" + ending
  }

  function CompressedMessage(sections: seq<string>, summary: string, settings: Settings, id: string): Message {
    Message(System, Layout(Preface(sections, settings), Ending(summary, settings)), "context-compression-" + id, true)
  }

  // Everything in the message that does not come from the state or the summary.
  const FIXED_CHARS: nat := |MARKER| + |NOTICE| + |STATE_HEADER| + |HISTORY_HEADER| + 7

  function Larger(a: nat, b: nat): nat {
    if a < b then b else a
  }

  function MessageBound(settings: Settings): nat {
    FIXED_CHARS
    + Larger(|NO_STATE|, settings.maxPrefaceChars + |TRUNCATED|)
    + Larger(|NO_SUMMARY|, settings.maxOutputTokens * CHAR_TOKEN_RATIO + |TRUNCATED|)
  }

  lemma CompressedMessageBounded(sections: seq<string>, summary: string, settings: Settings, id: string)
    ensures |CompressedMessage(sections, summary, settings, id).text| <= MessageBound(settings)
    ensures IsCompressedContext(CompressedMessage(sections, summary, settings, id))
    ensures CompressedMessage(sections, summary, settings, id).id != ""
  {
  }

  // It is recognised by its mark, and without the mark by its text ...
  lemma CompressedMessageRecognised(sections: seq<string>, summary: string, settings: Settings, id: string, text: string)
    ensures var c := CompressedMessage(sections, summary, settings, id);
            IsCompressedContext(c.(flagged := false)) && IsCompressedContext(c.(text := text))
  {
    LayoutHolds(Preface(sections, settings), Ending(summary, settings));
    MarkedText(Layout(Preface(sections, settings), Ending(summary, settings)));
  }

  lemma MarkedText(text: string)
    requires MARKER <= text
    ensures LeftStripped(text) == text
  {
    assert text[0] == MARKER[0] == '[';
  }

  // ... and no message is that has neither.
  lemma OthersNotRecognised(m: Message)
    requires !m.role.System? || (!m.flagged && !Holds(m.text, MARKER))
    ensures !IsCompressedContext(m)
  {
    var cut := LeftStrippedExactly(m.text);
    assert m.text[|cut|..] == LeftStripped(m.text);
  }

  lemma LayoutHolds(preface: string, ending: string)
    ensures MARKER <= Layout(preface, ending) && Holds(Layout(preface, ending), preface)
    ensures EndsWith(Layout(preface, ending), ending)
  {
    var head := MARKER + "\n" + NOTICE + "\n\n" + STATE_HEADER + "\n";
    var text := Layout(preface, ending);
    FiveParts(head, preface, "\n\n", HISTORY_HEADER, "\n", ending);
    assert text == head + preface + "\n\n" + HISTORY_HEADER + "\n" + ending;
    assert text[..|MARKER|] == MARKER;
  }

  lemma FiveParts(head: string, preface: string, a: string, b: string, c: string, ending: string)
    ensures Holds(head + preface + a + b + c + ending, preface)
  {
    HoldsPart(head, preface, a + b + c + ending);
    assert head + preface + a + b + c + ending == head + preface + (a + b + c + ending);
  }

  // The message holds the state, or says that there is none, and ends with the summary, or says
  // that there is none; both as far as the limits allow.
  lemma CompressedMessageHolds(sections: seq<string>, summary: string, settings: Settings, id: string)
    ensures var text := CompressedMessage(sections, summary, settings, id).text;
            && MARKER <= text
            && Holds(text, if sections == [] then NO_STATE else Truncated(Joined(sections), settings.maxPrefaceChars))
            && EndsWith(text, if IsBlank(summary) then NO_SUMMARY
                              else Truncated(Stripped(summary), settings.maxOutputTokens * CHAR_TOKEN_RATIO))
  {
    BlankSummary(summary, settings.maxOutputTokens * CHAR_TOKEN_RATIO);
    LayoutHolds(Preface(sections, settings), Ending(summary, settings));
  }

  lemma BlankSummary(summary: string, limit: nat)
    ensures Truncated(Stripped(summary), limit) == "" <==> IsBlank(summary)
  {
    var before, after := StrippedExactly(summary);
    var before', after' := StrippedExactly(Stripped(summary));
    if Stripped(summary) != "" {
      assert Stripped(summary)[0] in summary;
      StripTwice(Stripped(summary));
    }
  }

  lemma StripTwice(s: string)
    requires s != "" && !IsSpace(s[0]) && !IsSpace(s[|s| - 1])
    ensures Stripped(s) == s
  {
  }

  // ----- The update

  // Ids to remove, and messages to add.
  datatype Update = Update(removals: seq<string>, added: seq<Message>)

  function IdsOf(messages: seq<Message>): seq<string> {
    if messages == [] then []
    else (if messages[0].id == "" then [] else [messages[0].id]) + IdsOf(messages[1..])
  }

  function ReplacementUpdate(messages: seq<Message>, compressed: Message, retained: seq<Message>): Update {
    Update(IdsOf(messages), [compressed] + retained)
  }

  function Surviving(messages: seq<Message>, removals: seq<string>): seq<Message> {
    if messages == [] then []
    else (if messages[0].id in removals then [] else [messages[0]]) + Surviving(messages[1..], removals)
  }

  // What a thread holds after an update that adds a new message and others that it had: those
  // keep their order, and the new one is somewhere among them.
  ghost predicate Reduces(messages: seq<Message>, u: Update, result: seq<Message>) {
    u.added != [] &&
    var kept := Surviving(messages, u.removals) + u.added[1..];
    exists k | 0 <= k <= |kept| :: result == kept[..k] + ([u.added[0]] + kept[k..])
  }

  lemma {:induction false} IdsOfAll(messages: seq<Message>, m: Message)
    requires m in messages && m.id != ""
    ensures m.id in IdsOf(messages)
  {
    if messages[0] != m {
      IdsOfAll(messages[1..], m);
    }
  }

  lemma {:induction false} NoneSurvives(messages: seq<Message>, removals: seq<string>)
    requires forall m | m in messages :: m.id in removals
    ensures Surviving(messages, removals) == []
  {
    if messages != [] {
      assert messages[0] in messages;
      NoneSurvives(messages[1..], removals);
    }
  }

  lemma {:induction false} TurnsAppend(x: seq<Message>, y: seq<Message>)
    ensures Turns(x + y) == Turns(x) + Turns(y)
  {
    if x == [] {
      assert x + y == y;
    } else {
      TurnsAppend(x[1..], y);
      assert (x + y)[1..] == x[1..] + y;
    }
  }

  lemma TakenOut(x: seq<Message>, m: Message, y: seq<Message>)
    ensures TotalChars(x + ([m] + y)) == TotalChars([m] + (x + y))
    ensures Turns(x + ([m] + y)) == Turns([m] + (x + y))
  {
    TotalCharsAppend(x, [m] + y);
    TotalCharsAppend([m], y);
    TotalCharsAppend([m], x + y);
    TotalCharsAppend(x, y);
    TurnsAppend(x, [m] + y);
    TurnsAppend([m], y);
    TurnsAppend([m], x + y);
    TurnsAppend(x, y);
  }

  // The update takes every message away, adds the summary, and puts the retained messages back
  // in their order.
  lemma UpdateReplacesAll(messages: seq<Message>, compressed: Message, retained: seq<Message>, result: seq<Message>)
    returns (k: nat)
    requires forall m | m in messages :: m.id != ""
    requires Reduces(messages, ReplacementUpdate(messages, compressed, retained), result)
    ensures forall m | m in messages :: m.id in ReplacementUpdate(messages, compressed, retained).removals
    ensures k <= |retained| && result == retained[..k] + ([compressed] + retained[k..])
  {
    var u := ReplacementUpdate(messages, compressed, retained);
    forall m | m in messages
      ensures m.id in u.removals
    {
      IdsOfAll(messages, m);
    }
    NoneSurvives(messages, u.removals);
    assert u.added[1..] == retained;
    assert [] + retained == retained;
    var kept := Surviving(messages, u.removals) + u.added[1..];
    k :| 0 <= k <= |kept| && result == kept[..k] + ([u.added[0]] + kept[k..]);
  }

  // After a compression the thread holds the summary and the retained messages, each as it was
  // and in their order; it has exactly the turns to keep, so that compressing again would do
  // nothing; and it is estimated at no more than the retained messages and a bound that only the
  // settings decide.
  lemma CompressionReplaces(messages: seq<Message>, settings: Settings, estimated: int, compressed: Message,
                            sections: seq<string>, summary: string, id: string, result: seq<Message>) returns (k: nat)
    requires settings.keepRecentTurns >= 1 && BuildPlan(messages, settings, estimated).shouldCompress
    requires compressed == CompressedMessage(sections, summary, settings, id)
    requires var retained := BuildPlan(messages, settings, estimated).retained;
             Reduces(messages, ReplacementUpdate(messages, compressed, retained), result)
    ensures var retained := BuildPlan(messages, settings, estimated).retained;
            && k <= |retained| && result == retained[..k] + ([compressed] + retained[k..])
            && Tokens(TotalChars(result)) <= Tokens(TotalChars(retained)) + Tokens(ROLE_OVERHEAD + MessageBound(settings))
    ensures Turns(result) == settings.keepRecentTurns
    ensures forall m | m in result :: m.id != ""
    ensures forall again: int :: !BuildPlan(result, settings, again).shouldCompress
  {
    var retained := BuildPlan(messages, settings, estimated).retained;
    CompressesWhen(messages, settings, estimated);
    PlanSplits(messages, settings, estimated);
    k := UpdateReplacesAll(messages, compressed, retained, result);
    CompressedMessageBounded(sections, summary, settings, id);
    SummaryAdded(retained, compressed, k, result, MessageBound(settings));
    IdsStay(messages, retained, compressed, k, result);
    forall again: int
      ensures !BuildPlan(result, settings, again).shouldCompress
    {
      CompressesWhen(result, settings, again);
    }
  }

  lemma IdsStay(messages: seq<Message>, retained: seq<Message>, compressed: Message, k: nat, result: seq<Message>)
    requires forall m | m in messages :: m.id != ""
    requires (forall m | m in retained :: m in messages) && compressed.id != ""
    requires k <= |retained| && result == retained[..k] + ([compressed] + retained[k..])
    ensures forall m | m in result :: m.id != ""
  {
  }

  lemma SummaryAdded(retained: seq<Message>, m: Message, k: nat, result: seq<Message>, bound: nat)
    requires k <= |retained| && result == retained[..k] + ([m] + retained[k..])
    requires !m.role.Human? && |m.text| <= bound
    ensures Turns(result) == Turns(retained)
    ensures Tokens(TotalChars(result)) <= Tokens(TotalChars(retained)) + Tokens(ROLE_OVERHEAD + bound)
  {
    assert retained == retained[..k] + retained[k..];
    TakenOut(retained[..k], m, retained[k..]);
    TotalCharsAppend([m], retained);
    TurnsAppend([m], retained);
    assert [m][1..] == [];
    assert TotalChars([m]) == ROLE_OVERHEAD + |m.text| && Turns([m]) == 0;
    TokensOfSum(TotalChars(retained), TotalChars([m]), ROLE_OVERHEAD + bound);
  }

  lemma TokensOfSum(a: nat, b: nat, bound: nat)
    requires b <= bound
    ensures Tokens(a + b) <= Tokens(a) + Tokens(bound)
  {
  }
}
