/**
 One slot of the QueryBook seen without pages: the token trajectory, its three
 lengths and the turn ledger, with every operation that changes them.
 */
module TurnLedger {
  import opened Options

  /** The token store is an int32 tensor. */
  type Token = x: int | -0x8000_0000 <= x < 0x8000_0000

  datatype Turn = Turn(
    turnId: int, promptStart: int, promptLength: int,
    generatedStart: int, generatedLength: int)
  {
    function PromptEnd(): int { promptStart + promptLength }
    function GeneratedEnd(): int { generatedStart + generatedLength }
  }

  datatype Trajectory = Trajectory(
    tokens: seq<Token>, promptLength: nat, decodedLength: nat, maxTokens: nat,
    turns: seq<Turn>)

  function Fresh(maxTokens: nat): Trajectory {
    Trajectory([], 0, 0, maxTokens, [])
  }

  function Last<T>(s: seq<T>): T
    requires s != []
  {
    s[|s| - 1]
  }

  function Init<T>(s: seq<T>): seq<T>
    requires s != []
  {
    s[..|s| - 1]
  }

  // ---- meaning of a ledger -----------------------------------------------

  function GeneratedTotal(turns: seq<Turn>): int {
    if turns == [] then 0 else GeneratedTotal(Init(turns)) + Last(turns).generatedLength
  }

  predicate SpansWithin(turns: seq<Turn>, length: nat) {
    forall i | 0 <= i < |turns| ::
      0 <= turns[i].generatedStart <= turns[i].GeneratedEnd() <= length
  }

  /** Spans that start at a position and run forward: what every ledger of the book holds. */
  predicate SpansForward(turns: seq<Turn>) {
    forall i | 0 <= i < |turns| :: 0 <= turns[i].generatedStart && 0 <= turns[i].generatedLength
  }

  /** The generated spans of a trajectory, in ledger order. */
  function Generated(tokens: seq<Token>, turns: seq<Turn>): seq<Token>
    requires SpansWithin(turns, |tokens|)
  {
    if turns == [] then []
    else
      Generated(tokens, Init(turns)) +
      tokens[Last(turns).generatedStart..Last(turns).GeneratedEnd()]
  }

  predicate TurnOk(turns: seq<Turn>, i: nat, length: nat)
    requires i < |turns|
  {
    var turn := turns[i];
    && turn.turnId == i
    && 0 <= turn.promptStart && 0 <= turn.promptLength
    && 0 <= turn.generatedLength
    && turn.PromptEnd() <= turn.generatedStart
    && turn.GeneratedEnd() <= length
    && (if i == 0 then 0 else turns[i - 1].GeneratedEnd()) <= turn.generatedStart
  }

  /** What the migration check promises about a ledger it lets through. */
  predicate ValidTurns(turns: seq<Turn>, length: nat, decodedLength: int) {
    && (forall i | 0 <= i < |turns| :: TurnOk(turns, i, length))
    && (turns == [] ==> length == 0)
    && GeneratedTotal(turns) == decodedLength
  }

  /** The lengths of a slot never leave its reservation. */
  predicate Bounded(t: Trajectory) {
    t.promptLength <= |t.tokens| <= t.maxTokens
  }

  /** A ledger whose last span runs up to the end of the trajectory. */
  predicate Aligned(t: Trajectory) {
    && Bounded(t)
    && ValidTurns(t.turns, |t.tokens|, t.decodedLength)
    && (t.turns != [] ==> Last(t.turns).GeneratedEnd() == |t.tokens|)
  }

  // ---- operations --------------------------------------------------------

  datatype Op =
    | WritePrompt(prompt: seq<Token>)
    | AppendPrompt(prompt: seq<Token>)
    | AppendToken(token: Token)
    | BeginReentry(length: int)
    | SetPromptLength(length: int)

  function WritePromptOf(t: Trajectory, prompt: seq<Token>): Option<Trajectory> {
    if |prompt| > t.maxTokens then None
    else Some(Trajectory(prompt, |prompt|, 0, t.maxTokens, [Turn(0, 0, |prompt|, |prompt|, 0)]))
  }

  function AppendPromptOf(t: Trajectory, prompt: seq<Token>): Option<Trajectory> {
    var length := |t.tokens| + |prompt|;
    if length > t.maxTokens then None
    else Some(Trajectory(t.tokens + prompt, length, t.decodedLength, t.maxTokens,
                         t.turns + [Turn(|t.turns|, |t.tokens|, |prompt|, length, 0)]))
  }

  /** The ledger after one more sampled token at position `end - 1`. */
  function Increment(turns: seq<Turn>, promptLength: int, end: int): seq<Turn> {
    var ledger := if turns == [] then [Turn(0, 0, promptLength, end - 1, 0)] else turns;
    var last := Last(ledger);
    Init(ledger) + [last.(generatedLength := last.generatedLength + 1)]
  }

  function AppendTokenOf(t: Trajectory, token: Token): Option<Trajectory> {
    if |t.tokens| + 1 > t.maxTokens then None
    else Some(Trajectory(t.tokens + [token], t.promptLength, t.decodedLength + 1, t.maxTokens,
                         Increment(t.turns, t.promptLength, |t.tokens| + 1)))
  }

  function BeginReentryOf(t: Trajectory, length: int): Option<Trajectory> {
    if !(0 <= length <= |t.tokens|) then None
    else if t.turns != [] && Last(t.turns).generatedLength == 0
            && Last(t.turns).generatedStart == |t.tokens| then
      Some(t.(promptLength := length,
              turns := Init(t.turns) + [Turn(Last(t.turns).turnId, 0, length, |t.tokens|, 0)]))
    else
      Some(t.(promptLength := length,
              turns := t.turns + [Turn(|t.turns|, 0, length, |t.tokens|, 0)]))
  }

  function SetPromptLengthOf(t: Trajectory, length: int): Option<Trajectory> {
    if !(0 <= length <= |t.tokens|) then None else Some(t.(promptLength := length))
  }

  function Apply(t: Trajectory, op: Op): Option<Trajectory> {
    match op
    case WritePrompt(p) => WritePromptOf(t, p)
    case AppendPrompt(p) => AppendPromptOf(t, p)
    case AppendToken(x) => AppendTokenOf(t, x)
    case BeginReentry(n) => BeginReentryOf(t, n)
    case SetPromptLength(n) => SetPromptLengthOf(t, n)
  }

  // ---- every run keeps the ledger honest -----------------------------------

  /** A refused operation raises and changes nothing. */
  function After(t: Trajectory, op: Op): Trajectory {
    var r := Apply(t, op);
    if r.Some? then r.value else t
  }

  function RunOps(t: Trajectory, ops: seq<Op>): Trajectory {
    if ops == [] then t else After(RunOps(t, Init(ops)), Last(ops))
  }

  /** The sampled tokens, kept by an observer who ignores prompts and the ledger. */
  function NextLog(log: seq<Token>, op: Op): seq<Token> {
    match op
    case AppendToken(x) => log + [x]
    case WritePrompt(_) => []
    case _ => log
  }

  function Log(t: Trajectory, before: seq<Token>, ops: seq<Op>): seq<Token> {
    if ops == [] then before
    else
      var log := Log(t, before, Init(ops));
      if Apply(RunOps(t, Init(ops)), Last(ops)).Some? then NextLog(log, Last(ops)) else log
  }

  lemma {:induction false} ValidSpans(turns: seq<Turn>, length: nat, decodedLength: int)
    requires ValidTurns(turns, length, decodedLength)
    ensures SpansWithin(turns, length)
  {
    forall i | 0 <= i < |turns|
      ensures 0 <= turns[i].generatedStart <= turns[i].GeneratedEnd() <= length
    {
      assert TurnOk(turns, i, length);
    }
  }

  lemma {:induction false} GeneratedExtends(tokens: seq<Token>, more: seq<Token>, turns: seq<Turn>)
    requires SpansWithin(turns, |tokens|)
    ensures SpansWithin(turns, |tokens + more|)
    ensures Generated(tokens + more, turns) == Generated(tokens, turns)
  {
    if turns != [] {
      GeneratedExtends(tokens, more, Init(turns));
      var last := Last(turns);
      assert (tokens + more)[last.generatedStart..last.GeneratedEnd()]
          == tokens[last.generatedStart..last.GeneratedEnd()];
    }
  }

  lemma AddTurn(turns: seq<Turn>, turn: Turn, length: nat, length': nat, decodedLength: int)
    requires forall i | 0 <= i < |turns| :: TurnOk(turns, i, length)
    requires GeneratedTotal(turns) == decodedLength && length <= length'
    requires turn.turnId == |turns| && turn.generatedLength == 0
    requires 0 <= turn.promptStart && 0 <= turn.promptLength
    requires turn.PromptEnd() <= turn.generatedStart == length'
    ensures ValidTurns(turns + [turn], length', decodedLength)
  {
    var turns' := turns + [turn];
    assert Init(turns') == turns;
    forall i | 0 <= i < |turns'|
      ensures TurnOk(turns', i, length')
    {
      if i < |turns| {
        assert TurnOk(turns, i, length);
      } else if i > 0 {
        assert TurnOk(turns, i - 1, length);
      }
    }
  }

  /** Replacing the last turn only asks about that turn. */
  lemma ReplaceLast(turns: seq<Turn>, turn: Turn, length: nat, length': nat, decodedLength: int)
    requires turns != [] && ValidTurns(turns, length, decodedLength) && length <= length'
    requires turn.turnId == Last(turns).turnId && 0 <= turn.generatedLength
    requires 0 <= turn.promptStart && 0 <= turn.promptLength
    requires turn.PromptEnd() <= turn.generatedStart == Last(turns).generatedStart
    requires turn.GeneratedEnd() <= length'
    ensures ValidTurns(Init(turns) + [turn], length',
                       decodedLength + turn.generatedLength - Last(turns).generatedLength)
  {
    var turns' := Init(turns) + [turn];
    assert Init(turns') == Init(turns);
    forall i | 0 <= i < |turns'|
      ensures TurnOk(turns', i, length')
    {
      assert TurnOk(turns, i, length);
      if i > 0 { assert TurnOk(turns, i - 1, length); }
    }
  }

  lemma FirstTokenKeeps(t: Trajectory, token: Token)
    requires Aligned(t) && t.turns == [] && AppendTokenOf(t, token).Some?
    ensures var t' := AppendTokenOf(t, token).value;
            && Aligned(t') && SpansWithin(t'.turns, |t'.tokens|)
            && Generated(t'.tokens, t'.turns) == [token]
  {
    var first := [Turn(0, 0, t.promptLength, 0, 1)];
    assert Increment(t.turns, t.promptLength, 1) == first;
    assert Init(first) == [] && GeneratedTotal(Init(first)) == 0;
    assert Generated([token], Init(first)) == [];
    assert TurnOk(first, 0, 1);
    assert t.tokens + [token] == [token];
  }

  /** What the next sampled token adds to the generated tokens, whatever the ledger. */
  lemma AppendReads(t: Trajectory, token: Token)
    requires Bounded(t) && ValidTurns(t.turns, |t.tokens|, t.decodedLength) && t.turns != []
    requires AppendTokenOf(t, token).Some?
    ensures var t' := AppendTokenOf(t, token).value;
            && SpansWithin(t.turns, |t.tokens|) && SpansWithin(t'.turns, |t'.tokens|)
            && Generated(t'.tokens, t'.turns)
               == Generated(t.tokens, t.turns) + [t'.tokens[Last(t.turns).GeneratedEnd()]]
  {
    var t' := AppendTokenOf(t, token).value;
    ValidSpans(t.turns, |t.tokens|, t.decodedLength);
    var init, last, last' := Init(t.turns), Last(t.turns), Last(t'.turns);
    assert TurnOk(t.turns, |t.turns| - 1, |t.tokens|);
    assert Init(t'.turns) == init;
    GeneratedExtends(t.tokens, [token], init);
    assert t'.tokens[last'.generatedStart..last'.GeneratedEnd()]
        == t.tokens[last.generatedStart..last.GeneratedEnd()] + [t'.tokens[last.GeneratedEnd()]];
  }

  /** One sampled token lands at the end of the ledger's last span. */
  lemma AppendTokenKeeps(t: Trajectory, token: Token)
    requires Aligned(t) && AppendTokenOf(t, token).Some?
    ensures var t' := AppendTokenOf(t, token).value;
            && Aligned(t')
            && SpansWithin(t.turns, |t.tokens|) && SpansWithin(t'.turns, |t'.tokens|)
            && Generated(t'.tokens, t'.turns) == Generated(t.tokens, t.turns) + [token]
  {
    var t', n := AppendTokenOf(t, token).value, |t.tokens|;
    if t.turns == [] {
      FirstTokenKeeps(t, token);
    } else {
      AppendReads(t, token);
      assert TurnOk(t.turns, |t.turns| - 1, n);
      ReplaceLast(t.turns, Last(t'.turns), n, n + 1, t.decodedLength);
    }
  }

  lemma NewTurnKeeps(t: Trajectory, more: seq<Token>, promptLength: nat, turn: Turn)
    requires Aligned(t) && |t.tokens + more| <= t.maxTokens && promptLength <= |t.tokens + more|
    requires turn.turnId == |t.turns| && turn.generatedLength == 0
    requires 0 <= turn.promptStart && 0 <= turn.promptLength
    requires turn.PromptEnd() <= turn.generatedStart == |t.tokens + more|
    ensures var t' := t.(tokens := t.tokens + more, promptLength := promptLength, turns := t.turns + [turn]);
            && Aligned(t')
            && SpansWithin(t.turns, |t.tokens|) && SpansWithin(t'.turns, |t'.tokens|)
            && Generated(t'.tokens, t'.turns) == Generated(t.tokens, t.turns)
  {
    var turns', tokens' := t.turns + [turn], t.tokens + more;
    ValidSpans(t.turns, |t.tokens|, t.decodedLength);
    AddTurn(t.turns, turn, |t.tokens|, |tokens'|, t.decodedLength);
    ValidSpans(turns', |tokens'|, t.decodedLength);
    GeneratedExtends(t.tokens, more, t.turns);
    assert Init(turns') == t.turns;
  }

  lemma SameTurnKeeps(t: Trajectory, promptLength: nat, turn: Turn)
    requires Aligned(t) && t.turns != [] && promptLength <= |t.tokens|
    requires Last(t.turns).generatedLength == 0 && Last(t.turns).generatedStart == |t.tokens|
    requires turn == Turn(Last(t.turns).turnId, 0, promptLength, |t.tokens|, 0)
    ensures var t' := t.(promptLength := promptLength, turns := Init(t.turns) + [turn]);
            && Aligned(t')
            && SpansWithin(t.turns, |t.tokens|) && SpansWithin(t'.turns, |t'.tokens|)
            && Generated(t'.tokens, t'.turns) == Generated(t.tokens, t.turns)
  {
    var turns' := Init(t.turns) + [turn];
    ValidSpans(t.turns, |t.tokens|, t.decodedLength);
    ReplaceLast(t.turns, turn, |t.tokens|, |t.tokens|, t.decodedLength);
    ValidSpans(turns', |t.tokens|, t.decodedLength);
    assert Init(turns') == Init(t.turns);
  }

  /** Prompts, re-entries and prompt-boundary moves leave the generated tokens alone. */
  lemma PromptOpKeeps(t: Trajectory, op: Op)
    requires Aligned(t) && Apply(t, op).Some? && (op.AppendPrompt? || op.BeginReentry? || op.SetPromptLength?)
    ensures var t' := Apply(t, op).value;
            && Aligned(t')
            && SpansWithin(t.turns, |t.tokens|) && SpansWithin(t'.turns, |t'.tokens|)
            && Generated(t'.tokens, t'.turns) == Generated(t.tokens, t.turns)
  {
    var t' := Apply(t, op).value;
    if op.SetPromptLength? {
      ValidSpans(t.turns, |t.tokens|, t.decodedLength);
    } else if |t'.turns| == |t.turns| {
      SameTurnKeeps(t, op.length, Last(t'.turns));
    } else if op.AppendPrompt? {
      NewTurnKeeps(t, op.prompt, t'.promptLength, Last(t'.turns));
    } else {
      assert t.tokens + [] == t.tokens;
      NewTurnKeeps(t, [], op.length, Last(t'.turns));
    }
  }

  lemma WritePromptKeeps(t: Trajectory, prompt: seq<Token>)
    requires WritePromptOf(t, prompt).Some?
    ensures var t' := WritePromptOf(t, prompt).value;
            && t'.tokens == prompt && t'.promptLength == |prompt|
            && Aligned(t') && SpansWithin(t'.turns, |t'.tokens|) && Generated(t'.tokens, t'.turns) == []
  {
    var t' := WritePromptOf(t, prompt).value;
    assert Init(t'.turns) == [];
    assert TurnOk(t'.turns, 0, |prompt|);
    assert GeneratedTotal(t'.turns) == 0;
  }

  /**
   Over every run of prompt writes, later prompts, sampled tokens, re-entries
   and prompt-boundary moves, accepted or refused, the generated tokens read
   through the ledger are exactly the log of sampled tokens; the ledger sums to
   the decoded length and its last span ends at the end of the trajectory.
   */
  lemma {:induction false} LedgerIsLog(t: Trajectory, log: seq<Token>, ops: seq<Op>)
    requires Aligned(t) && SpansWithin(t.turns, |t.tokens|) && Generated(t.tokens, t.turns) == log
    ensures var t' := RunOps(t, ops);
            && Aligned(t')
            && SpansWithin(t'.turns, |t'.tokens|)
            && Generated(t'.tokens, t'.turns) == Log(t, log, ops)
    decreases |ops|
  {
    if ops != [] {
      LedgerIsLog(t, log, Init(ops));
      var mid, op := RunOps(t, Init(ops)), Last(ops);
      if Apply(mid, op).Some? {
        match op
        case AppendToken(x) => AppendTokenKeeps(mid, x);
        case WritePrompt(p) => WritePromptKeeps(mid, p);
        case _ => PromptOpKeeps(mid, op);
      }
    }
  }

  // ---- what an onlooker would write down -------------------------------------

  /** One turn as it was heard: where its prompt and its answer begin, and what they say. */
  datatype Opening = Opening(from: nat, prompt: seq<Token>, heardFrom: nat, heard: seq<Token>)

  /** The whole conversation, the last prompt boundary announced, and the turns. */
  datatype Story = Story(transcript: seq<Token>, boundary: nat, openings: seq<Opening>)

  const UNTOLD := Story([], 0, [])

  /** Whether a slot with this much room takes an operation; only lengths matter. */
  predicate Welcome(s: Story, room: nat, op: Op) {
    match op
    case WritePrompt(p) => |p| <= room
    case AppendPrompt(p) => |s.transcript| + |p| <= room
    case AppendToken(_) => |s.transcript| < room
    case BeginReentry(n) => 0 <= n <= |s.transcript|
    case SetPromptLength(n) => 0 <= n <= |s.transcript|
  }

  function Hear(openings: seq<Opening>, token: Token): seq<Opening> {
    if openings == [] then [Opening(0, [], 0, [token])]
    else Init(openings) + [Last(openings).(heard := Last(openings).heard + [token])]
  }

  /** Turns a re-entry keeps: one in which nothing was said yet is forgotten. */
  function Answered(openings: seq<Opening>): seq<Opening> {
    if openings != [] && Last(openings).heard == [] then Init(openings) else openings
  }

  function Told(s: Story, op: Op): Story
    requires op.BeginReentry? || op.SetPromptLength? ==> 0 <= op.length <= |s.transcript|
  {
    var n := |s.transcript|;
    match op
    case WritePrompt(p) => Story(p, |p|, [Opening(0, p, |p|, [])])
    case AppendPrompt(p) => Story(s.transcript + p, n + |p|, s.openings + [Opening(n, p, n + |p|, [])])
    case AppendToken(x) => s.(transcript := s.transcript + [x], openings := Hear(s.openings, x))
    case BeginReentry(k) =>
      s.(boundary := k, openings := Answered(s.openings) + [Opening(0, s.transcript[..k], n, [])])
    case SetPromptLength(k) => s.(boundary := k)
  }

  function Observe(s: Story, room: nat, op: Op): Story {
    if Welcome(s, room, op) then Told(s, op) else s
  }

  function ObserveAll(s: Story, room: nat, ops: seq<Op>): Story {
    if ops == [] then s else Observe(ObserveAll(s, room, Init(ops)), room, Last(ops))
  }

  /** The transcript says at both places what the turn says. */
  ghost predicate Quotes(transcript: seq<Token>, o: Opening) {
    && o.from + |o.prompt| <= |transcript| && transcript[o.from..o.from + |o.prompt|] == o.prompt
    && o.heardFrom + |o.heard| <= |transcript| && transcript[o.heardFrom..o.heardFrom + |o.heard|] == o.heard
  }

  function TurnOf(i: nat, o: Opening): Turn { Turn(i, o.from, |o.prompt|, o.heardFrom, |o.heard|) }

  /** The slot is the story: its tokens, its boundary and, turn by turn, its ledger. */
  ghost predicate Tells(t: Trajectory, s: Story) {
    && t.tokens == s.transcript && t.promptLength == s.boundary <= |s.transcript|
    && LedgerTells(t.turns, s.transcript, s.openings)
    && t.decodedLength == GeneratedTotal(t.turns)
    && (s.openings == [] ==> s.transcript == [])
    && (s.openings != [] ==> Last(s.openings).heardFrom + |Last(s.openings).heard| == |s.transcript|)
  }

  ghost predicate LedgerTells(turns: seq<Turn>, transcript: seq<Token>, openings: seq<Opening>) {
    && |turns| == |openings|
    && (forall i | 0 <= i < |turns| :: turns[i] == TurnOf(i, openings[i]))
    && (forall i | 0 <= i < |openings| :: Quotes(transcript, openings[i]))
  }

  lemma QuotesLater(transcript: seq<Token>, more: seq<Token>, o: Opening)
    requires Quotes(transcript, o)
    ensures Quotes(transcript + more, o)
  {
    assert (transcript + more)[o.from..o.from + |o.prompt|] == transcript[o.from..o.from + |o.prompt|];
    assert (transcript + more)[o.heardFrom..o.heardFrom + |o.heard|] == transcript[o.heardFrom..o.heardFrom + |o.heard|];
  }

  lemma LedgerTellsLater(turns: seq<Turn>, transcript: seq<Token>, more: seq<Token>, openings: seq<Opening>)
    requires LedgerTells(turns, transcript, openings)
    ensures LedgerTells(turns, transcript + more, openings)
  {
    hide Quotes;
    forall i | 0 <= i < |openings| ensures Quotes(transcript + more, openings[i]) {
      QuotesLater(transcript, more, openings[i]);
    }
  }

  lemma LedgerTellsOneMore(turns: seq<Turn>, transcript: seq<Token>, openings: seq<Opening>, o: Opening)
    requires LedgerTells(turns, transcript, openings) && Quotes(transcript, o)
    ensures LedgerTells(turns + [TurnOf(|turns|, o)], transcript, openings + [o])
  {
    hide Quotes;
  }

  lemma LedgerTellsInit(turns: seq<Turn>, transcript: seq<Token>, openings: seq<Opening>)
    requires LedgerTells(turns, transcript, openings) && turns != []
    ensures LedgerTells(Init(turns), transcript, Init(openings))
    ensures Last(turns) == TurnOf(|turns| - 1, Last(openings)) && Quotes(transcript, Last(openings))
  {
    hide Quotes;
  }

  lemma TotalOneMore(turns: seq<Turn>, turn: Turn)
    ensures GeneratedTotal(turns + [turn]) == GeneratedTotal(turns) + turn.generatedLength
  {
    assert Init(turns + [turn]) == turns;
  }

  lemma TellsWritten(t: Trajectory, s: Story, p: seq<Token>)
    requires Tells(t, s) && |p| <= t.maxTokens
    ensures WritePromptOf(t, p).Some? && Tells(WritePromptOf(t, p).value, Told(s, WritePrompt(p)))
  {
    var o := Opening(0, p, |p|, []);
    assert p[0..|p|] == p;
    LedgerTellsOneMore([], p, [], o);
    TotalOneMore([], TurnOf(0, o));
    assert [] + [o] == [o] && [] + [TurnOf(0, o)] == [TurnOf(0, o)];
  }

  lemma TellsPrompted(t: Trajectory, s: Story, p: seq<Token>)
    requires Tells(t, s) && |s.transcript| + |p| <= t.maxTokens
    ensures AppendPromptOf(t, p).Some? && Tells(AppendPromptOf(t, p).value, Told(s, AppendPrompt(p)))
  {
    var n, all := |s.transcript|, s.transcript + p;
    var o := Opening(n, p, n + |p|, []);
    LedgerTellsLater(t.turns, s.transcript, p, s.openings);
    assert all[n..n + |p|] == p;
    LedgerTellsOneMore(t.turns, all, s.openings, o);
    TotalOneMore(t.turns, TurnOf(|t.turns|, o));
  }

  lemma TellsSampled(t: Trajectory, s: Story, x: Token)
    requires Tells(t, s) && |s.transcript| < t.maxTokens
    ensures AppendTokenOf(t, x).Some? && Tells(AppendTokenOf(t, x).value, Told(s, AppendToken(x)))
  {
    hide LedgerTells, GeneratedTotal, Increment, Hear;
    LedgerTellsSizes(t.turns, s.transcript, s.openings);
    if t.turns == [] {
      assert s.transcript + [x] == [x];
      HeardFirst(x);
    } else {
      HeardOneMore(t.turns, s.transcript, s.openings, x);
      IncrementIgnores(t.turns, t.promptLength, |t.tokens| + 1);
    }
    HeardLast(s.openings, x);
  }

  lemma LedgerTellsSizes(turns: seq<Turn>, transcript: seq<Token>, openings: seq<Opening>)
    requires LedgerTells(turns, transcript, openings)
    ensures |turns| == |openings|
  {
  }

  lemma HeardFirst(x: Token)
    ensures LedgerTells(Increment([], 0, 1), [x], Hear([], x)) && GeneratedTotal(Increment([], 0, 1)) == 1
    ensures GeneratedTotal([]) == 0
  {
    var o := Opening(0, [], 0, [x]);
    assert [x][0..0] == [] && [x][0..1] == [x];
    LedgerTellsOneMore([], [x], [], o);
    TotalOneMore([], TurnOf(0, o));
    assert [] + [o] == [o] && [] + [TurnOf(0, o)] == [TurnOf(0, o)] == Increment([], 0, 1);
  }

  lemma HeardLast(openings: seq<Opening>, x: Token)
    ensures var now := Hear(openings, x);
            && now != []
            && Last(now).heardFrom + |Last(now).heard|
               == 1 + (if openings == [] then 0 else Last(openings).heardFrom + |Last(openings).heard|)
  {
  }

  lemma IncrementIgnores(turns: seq<Turn>, promptLength: int, end: int)
    requires turns != []
    ensures Increment(turns, promptLength, end) == Increment(turns, 0, 0)
  {
  }

  lemma HeardOneMore(turns: seq<Turn>, transcript: seq<Token>, openings: seq<Opening>, x: Token)
    requires LedgerTells(turns, transcript, openings) && turns != []
    requires Last(openings).heardFrom + |Last(openings).heard| == |transcript|
    ensures LedgerTells(Increment(turns, 0, 0), transcript + [x], Hear(openings, x))
    ensures GeneratedTotal(Increment(turns, 0, 0)) == GeneratedTotal(turns) + 1
  {
    var all, last := transcript + [x], Last(openings);
    var o := last.(heard := last.heard + [x]);
    LedgerTellsInit(turns, transcript, openings);
    LedgerTellsLater(Init(turns), transcript, [x], Init(openings));
    QuotesLater(transcript, [x], last);
    assert all[o.heardFrom..o.heardFrom + |o.heard|] == o.heard;
    LedgerTellsOneMore(Init(turns), all, Init(openings), o);
    TotalOneMore(Init(turns), TurnOf(|turns| - 1, o));
  }

  lemma TellsReentered(t: Trajectory, s: Story, n: nat)
    requires Tells(t, s) && n <= |s.transcript|
    ensures BeginReentryOf(t, n).Some? && Tells(BeginReentryOf(t, n).value, Told(s, BeginReentry(n)))
  {
    var o := Opening(0, s.transcript[..n], |s.transcript|, []);
    var kept := if t.turns != [] && Last(t.turns).generatedLength == 0 then Init(t.turns) else t.turns;
    if t.turns != [] { LedgerTellsInit(t.turns, s.transcript, s.openings); }
    assert LedgerTells(kept, s.transcript, Answered(s.openings));
    assert Quotes(s.transcript, o);
    LedgerTellsOneMore(kept, s.transcript, Answered(s.openings), o);
    TotalOneMore(kept, TurnOf(|kept|, o));
  }

  /** An operation is accepted exactly when its lengths allow it, and then slot and story go on together. */
  lemma TellsNext(t: Trajectory, s: Story, op: Op)
    requires Tells(t, s)
    ensures Apply(t, op).Some? <==> Welcome(s, t.maxTokens, op)
    ensures After(t, op).maxTokens == t.maxTokens && Tells(After(t, op), Observe(s, t.maxTokens, op))
  {
    hide Tells;
    TellsBasics(t, s);
    if Welcome(s, t.maxTokens, op) {
      match op
      case WritePrompt(p) => TellsWritten(t, s, p);
      case AppendPrompt(p) => TellsPrompted(t, s, p);
      case AppendToken(x) => TellsSampled(t, s, x);
      case BeginReentry(n) => TellsReentered(t, s, n);
      case SetPromptLength(n) => TellsMoved(t, s, n);
    }
  }

  lemma TellsBasics(t: Trajectory, s: Story)
    requires Tells(t, s)
    ensures t.tokens == s.transcript && t.promptLength == s.boundary
  {
  }

  lemma TellsMoved(t: Trajectory, s: Story, n: nat)
    requires Tells(t, s) && n <= |s.transcript|
    ensures SetPromptLengthOf(t, n).Some? && Tells(SetPromptLengthOf(t, n).value, Told(s, SetPromptLength(n)))
  {
  }

  /**
   Over every run, accepted or refused operations alike, a slot holds exactly
   the conversation an onlooker wrote down: every prompt and sampled token in
   order since the prompt was last written, the last boundary announced, and for
   each turn its prompt and its answer.
   */
  lemma {:induction false} EveryRunTells(t: Trajectory, s: Story, ops: seq<Op>)
    requires Tells(t, s)
    ensures Tells(RunOps(t, ops), ObserveAll(s, t.maxTokens, ops)) && RunOps(t, ops).maxTokens == t.maxTokens
    decreases |ops|
  {
    hide Tells, After, Observe;
    if ops != [] {
      EveryRunTells(t, s, Init(ops));
      TellsNext(RunOps(t, Init(ops)), ObserveAll(s, t.maxTokens, Init(ops)), Last(ops));
    }
  }

  lemma FreshIsUntold(maxTokens: nat)
    ensures Tells(Fresh(maxTokens), UNTOLD)
  {
  }

  /** The ledger total is the length of the log. */
  lemma {:induction false} GeneratedLength(tokens: seq<Token>, turns: seq<Turn>)
    requires SpansWithin(turns, |tokens|)
    ensures |Generated(tokens, turns)| == GeneratedTotal(turns)
  {
    if turns != [] {
      GeneratedLength(tokens, Init(turns));
    }
  }

  // ---- the token fed to the next decode step -------------------------------

  /** Scans the turns from the back for the latest one that generated anything. */
  function LastGenerated(t: Trajectory, k: nat): Option<Token>
    requires k <= |t.turns| && SpansWithin(t.turns, |t.tokens|) && t.promptLength <= |t.tokens|
  {
    if k == 0 then
      if t.promptLength == 0 then None else Some(t.tokens[t.promptLength - 1])
    else if t.turns[k - 1].generatedLength != 0 then Some(t.tokens[t.turns[k - 1].GeneratedEnd() - 1])
    else LastGenerated(t, k - 1)
  }

  /** It is the last sampled token, across any prompts appended since. */
  lemma {:induction false} LastGeneratedIsEndOfLog(t: Trajectory, k: nat)
    requires k <= |t.turns| && SpansWithin(t.turns, |t.tokens|) && t.promptLength <= |t.tokens|
    ensures var g := Generated(t.tokens, t.turns[..k]);
            LastGenerated(t, k) ==
              if g != [] then Some(Last(g))
              else if t.promptLength > 0 then Some(t.tokens[t.promptLength - 1]) else None
  {
    if k > 0 {
      assert Init(t.turns[..k]) == t.turns[..k - 1];
      LastGeneratedIsEndOfLog(t, k - 1);
    }
  }

  // ---- migration -----------------------------------------------------------

  function EncodeTurn(turn: Turn): seq<int> {
    [turn.turnId, turn.promptStart, turn.promptLength,
     turn.generatedStart, turn.generatedLength, turn.GeneratedEnd()]
  }

  function EncodeTurns(turns: seq<Turn>): seq<seq<int>> {
    seq(|turns|, i requires 0 <= i < |turns| => EncodeTurn(turns[i]))
  }

  function DecodeTurn(row: seq<int>): Option<Turn> {
    if |row| == 6 && row[5] == row[3] + row[4]
    then Some(Turn(row[0], row[1], row[2], row[3], row[4])) else None
  }

  function DecodeTurns(payload: seq<seq<int>>): Option<seq<Turn>> {
    if payload == [] then Some([])
    else
      var init, last := DecodeTurns(Init(payload)), DecodeTurn(Last(payload));
      if init.Some? && last.Some? then Some(init.value + [last.value]) else None
  }

  /** Every ledger survives the payload, and a payload that decodes is the encoding of its ledger. */
  lemma {:induction false} PayloadRoundTrip(turns: seq<Turn>)
    ensures DecodeTurns(EncodeTurns(turns)) == Some(turns)
  {
    if turns != [] {
      assert Init(EncodeTurns(turns)) == EncodeTurns(Init(turns));
      PayloadRoundTrip(Init(turns));
      assert DecodeTurn(Last(EncodeTurns(turns))) == Some(Last(turns));
      assert turns == Init(turns) + [Last(turns)];
    }
  }

  lemma {:induction false} DecodedPayloadIsEncoding(payload: seq<seq<int>>)
    requires DecodeTurns(payload).Some?
    ensures EncodeTurns(DecodeTurns(payload).value) == payload
  {
    if payload != [] {
      DecodedPayloadIsEncoding(Init(payload));
      var turns := DecodeTurns(payload).value;
      assert Init(turns) == DecodeTurns(Init(payload)).value;
      assert Init(EncodeTurns(turns)) == EncodeTurns(Init(turns));
      assert EncodeTurn(Last(turns)) == Last(payload);
      assert EncodeTurns(turns) == Init(EncodeTurns(turns)) + [EncodeTurn(Last(turns))];
    }
  }

  /** The ledger a restore installs, when it is accepted. */
  function RestoredTurns(turns: Option<seq<Turn>>, length: nat, promptLength: nat, decodedLength: nat):
    Option<seq<Turn>>
    requires promptLength <= length
  {
    if turns.None? then
      if length - promptLength != decodedLength then None
      else Some([Turn(0, 0, promptLength, promptLength, length - promptLength)])
    else if ValidTurns(turns.value, length, decodedLength) then turns else None
  }

  function RestoreOf(t: Trajectory, tokens: seq<Token>, promptLength: int, decodedLength: int,
                     turns: Option<seq<Turn>>): Option<Trajectory> {
    if promptLength < 0 || decodedLength < 0 || promptLength > |tokens| || |tokens| > t.maxTokens then None
    else
      var installed := RestoredTurns(turns, |tokens|, promptLength, decodedLength);
      if installed.None? then None
      else Some(Trajectory(tokens, promptLength, decodedLength, t.maxTokens, installed.value))
  }

  /**
   Migration: whatever a slot went through, its tokens, lengths and encoded
   ledger are accepted by any slot with room and rebuild the same trajectory,
   hence the same generated tokens.
   */
  lemma MigrationRoundTrip(source: Trajectory, log: seq<Token>, ops: seq<Op>, target: Trajectory)
    requires Aligned(source) && SpansWithin(source.turns, |source.tokens|)
    requires Generated(source.tokens, source.turns) == log
    requires |RunOps(source, ops).tokens| <= target.maxTokens
    ensures var t := RunOps(source, ops);
            && DecodeTurns(EncodeTurns(t.turns)) == Some(t.turns)
            && RestoreOf(target, t.tokens, t.promptLength, t.decodedLength,
                         DecodeTurns(EncodeTurns(t.turns)))
               == Some(t.(maxTokens := target.maxTokens))
            && SpansWithin(t.turns, |t.tokens|)
            && Generated(t.tokens, t.turns) == Log(source, log, ops)
  {
    LedgerIsLog(source, log, ops);
    PayloadRoundTrip(RunOps(source, ops).turns);
  }

  /** A restore always leaves a ledger whose spans lie inside the trajectory. */
  lemma RestoreSpans(t: Trajectory, tokens: seq<Token>, promptLength: int, decodedLength: int,
                     turns: Option<seq<Turn>>)
    requires RestoreOf(t, tokens, promptLength, decodedLength, turns).Some?
    ensures var t' := RestoreOf(t, tokens, promptLength, decodedLength, turns).value;
            Bounded(t') && ValidTurns(t'.turns, |t'.tokens|, t'.decodedLength)
            && SpansWithin(t'.turns, |t'.tokens|)
  {
    var t' := RestoreOf(t, tokens, promptLength, decodedLength, turns).value;
    if turns.None? {
      assert Init(t'.turns) == [];
      assert TurnOk(t'.turns, 0, |tokens|);
      assert GeneratedTotal(t'.turns) == GeneratedTotal([]) + Last(t'.turns).generatedLength;
    }
    ValidSpans(t'.turns, |t'.tokens|, t'.decodedLength);
  }

  /**
   The check accepts ledgers that stop short of the trajectory.  After such a
   restore the next sampled token is not what the ledger reports: it reports
   the token right after its last span.  It reports every next token correctly
   exactly when the restored ledger runs to the end.
   */
  lemma RestoredLedgerLogsIff(t: Trajectory)
    requires Bounded(t) && ValidTurns(t.turns, |t.tokens|, t.decodedLength) && |t.tokens| < t.maxTokens
    ensures (forall token: Token ::
               var t' := AppendTokenOf(t, token).value;
               && SpansWithin(t.turns, |t.tokens|) && SpansWithin(t'.turns, |t'.tokens|)
               && Generated(t'.tokens, t'.turns) == Generated(t.tokens, t.turns) + [token])
            <==> (t.turns == [] || Last(t.turns).GeneratedEnd() == |t.tokens|)
  {
    ValidSpans(t.turns, |t.tokens|, t.decodedLength);
    if t.turns == [] || Last(t.turns).GeneratedEnd() == |t.tokens| {
      forall token: Token
        ensures var t' := AppendTokenOf(t, token).value;
                && SpansWithin(t.turns, |t.tokens|) && SpansWithin(t'.turns, |t'.tokens|)
                && Generated(t'.tokens, t'.turns) == Generated(t.tokens, t.turns) + [token]
      {
        AppendTokenKeeps(t, token);
      }
    } else {
      var end := Last(t.turns).GeneratedEnd();
      assert TurnOk(t.turns, |t.turns| - 1, |t.tokens|);
      var other: Token := if t.tokens[end] == 0 then 1 else 0;
      AppendReads(t, other);
      var t' := AppendTokenOf(t, other).value;
      var g := Generated(t.tokens, t.turns);
      assert t'.tokens[end] == t.tokens[end] != other;
      assert (g + [t'.tokens[end]])[|g|] != (g + [other])[|g|];
    }
  }

  /** Such a ledger exists: two tokens, one turn that ends before the second of them. */
  lemma RestoreAcceptsShortLedger()
    ensures var short := [Turn(0, 0, 1, 1, 0)];
            var t := RestoreOf(Fresh(3), [10, 20], 1, 0, Some(short));
            && t == Some(Trajectory([10, 20], 1, 0, 3, short))
            && var t' := AppendTokenOf(t.value, 30).value;
               SpansWithin(t'.turns, 3) && Generated(t'.tokens, t'.turns) == [20]
  {
    var short := [Turn(0, 0, 1, 1, 0)];
    ShortLedgerIsValid(short);
    ShortLedgerMisreads(Trajectory([10, 20], 1, 0, 3, short));
    hide AppendTokenOf, SpansWithin, Generated, ValidTurns;
  }

  lemma ShortLedgerMisreads(t: Trajectory)
    requires t == Trajectory([10, 20], 1, 0, 3, [Turn(0, 0, 1, 1, 0)])
    ensures AppendTokenOf(t, 30).Some?
    ensures var t' := AppendTokenOf(t, 30).value; SpansWithin(t'.turns, 3) && Generated(t'.tokens, t'.turns) == [20]
  {
    var t' := AppendTokenOf(t, 30).value;
    var turn := Turn(0, 0, 1, 1, 1);
    assert t'.tokens == [10, 20, 30];
    assert t'.turns == [turn] by { assert Init(t.turns) == []; }
    OneSpan(t'.tokens, turn);
    assert [10, 20, 30][1..2] == [20];
    hide Generated, Init, Last;
  }

  lemma OneSpan(tokens: seq<Token>, turn: Turn)
    requires SpansWithin([turn], |tokens|)
    ensures 0 <= turn.generatedStart <= turn.GeneratedEnd() <= |tokens|
    ensures Generated(tokens, [turn]) == tokens[turn.generatedStart..turn.GeneratedEnd()]
  {
    var one := [turn];
    assert one[0] == turn && Init(one) == [] && Last(one) == turn;
    assert Generated(tokens, one) == [] + tokens[turn.generatedStart..turn.GeneratedEnd()];
  }

  lemma ShortLedgerIsValid(short: seq<Turn>)
    requires short == [Turn(0, 0, 1, 1, 0)]
    ensures ValidTurns(short, 2, 0)
  {
    assert Init(short) == [];
    assert GeneratedTotal(short) == GeneratedTotal(Init(short)) + 0;
  }

  // ---- mirrors ---------------------------------------------------------------

  /**
   A rank that did not run the decode step takes over the owner's lengths; the
   token bytes are already in the shared pages.
   */
  function SynchronizeOf(t: Trajectory, promptLength: int, shared: seq<Token>, decodedLength: int):
    Option<Trajectory>
  {
    if promptLength < 0 || decodedLength < 0 || promptLength > |shared| || |shared| > t.maxTokens then None
    else
      var turns := SyncedTurns(t.turns, promptLength, |shared|, decodedLength);
      if turns.None? then None
      else Some(Trajectory(shared, promptLength, decodedLength, t.maxTokens, turns.value))
  }

  /** The ledger a rank keeps when it takes over the owner's lengths. */
  function SyncedTurns(turns: seq<Turn>, promptLength: nat, tokenLength: nat, decodedLength: nat): Option<seq<Turn>> {
    if turns != [] then
      var lastGenerated := decodedLength - GeneratedTotal(Init(turns));
      if lastGenerated < 0 then None else Some(Init(turns) + [Last(turns).(generatedLength := lastGenerated)])
    else if tokenLength == 0 && decodedLength == 0 then Some([])
    else if tokenLength - promptLength != decodedLength then None
    else Some([Turn(0, 0, promptLength, promptLength, decodedLength)])
  }

  predicate SameUpToLastCount(a: seq<Turn>, b: seq<Turn>) {
    && |a| == |b|
    && (a != [] ==> Init(a) == Init(b)
                    && Last(a).(generatedLength := 0) == Last(b).(generatedLength := 0))
  }

  /**
   Handing over the owner's lengths rebuilds the owner's slot exactly when the
   mirror already knew every turn the owner has, up to the count of the last.
   */
  lemma SynchronizeIsExactIff(mirror: Trajectory, owner: Trajectory)
    requires Aligned(mirror) && Aligned(owner) && mirror.turns != []
    requires mirror.maxTokens == owner.maxTokens
    ensures SynchronizeOf(mirror, owner.promptLength, owner.tokens, owner.decodedLength) == Some(owner)
            <==> SameUpToLastCount(mirror.turns, owner.turns)
  {
    var r := SynchronizeOf(mirror, owner.promptLength, owner.tokens, owner.decodedLength);
    if SameUpToLastCount(mirror.turns, owner.turns) {
      assert TurnOk(owner.turns, |owner.turns| - 1, |owner.tokens|);
      assert owner.turns == Init(owner.turns) + [Last(owner.turns)];
    }
    if r == Some(owner) {
      assert Init(owner.turns) == Init(mirror.turns);
    }
  }

  predicate DecodeOp(op: Op) { op.AppendToken? || op.SetPromptLength? }

  lemma {:induction false} DecodingOnlyCounts(t: Trajectory, ops: seq<Op>)
    requires Aligned(t) && t.turns != [] && (forall i | 0 <= i < |ops| :: DecodeOp(ops[i]))
    ensures var t' := RunOps(t, ops);
            Aligned(t') && t'.maxTokens == t.maxTokens && SameUpToLastCount(t.turns, t'.turns)
    decreases |ops|
  {
    if ops != [] {
      DecodingOnlyCounts(t, Init(ops));
      var mid, op := RunOps(t, Init(ops)), Last(ops);
      assert DecodeOp(op);
      if Apply(mid, op).Some? {
        if op.AppendToken? {
          AppendTokenKeeps(mid, op.token);
          assert Init(After(mid, op).turns) == Init(mid.turns);
        } else {
          PromptOpKeeps(mid, op);
        }
      }
    }
  }

  lemma {:induction false} DecodingFromNothing(t: Trajectory, ops: seq<Op>)
    requires Aligned(t) && t.turns == [] && (forall i | 0 <= i < |ops| :: DecodeOp(ops[i]))
    ensures var t' := RunOps(t, ops);
            && Aligned(t') && t'.maxTokens == t.maxTokens
            && |t'.tokens| == t'.decodedLength
            && t'.turns == (if t'.tokens == [] then [] else [Turn(0, 0, 0, 0, |t'.tokens|)])
    decreases |ops|
  {
    if ops != [] {
      DecodingFromNothing(t, Init(ops));
      var mid, op := RunOps(t, Init(ops)), Last(ops);
      assert DecodeOp(op);
      if Apply(mid, op).Some? {
        if op.AppendToken? { AppendTokenKeeps(mid, op.token); } else { PromptOpKeeps(mid, op); }
      }
    }
  }

  /** A mirror that agreed with the owner before a decode phase agrees again after taking its lengths. */
  lemma MirrorCatchesUp(t: Trajectory, ops: seq<Op>)
    requires Aligned(t) && t.turns != [] && (forall i | 0 <= i < |ops| :: DecodeOp(ops[i]))
    ensures var owner := RunOps(t, ops);
            && Aligned(owner)
            && SynchronizeOf(t, owner.promptLength, owner.tokens, owner.decodedLength) == Some(owner)
  {
    DecodingOnlyCounts(t, ops);
    SynchronizeIsExactIff(t, RunOps(t, ops));
  }

  /**
   A slot that never received a prompt has no turn to count in.  The fallback
   rebuilds the owner's turn unless the owner moved its prompt boundary, and
   then it refuses.
   */
  lemma EmptyMirrorCatchesUpIff(t: Trajectory, ops: seq<Op>)
    requires Aligned(t) && t.turns == [] && (forall i | 0 <= i < |ops| :: DecodeOp(ops[i]))
    ensures var owner := RunOps(t, ops);
            var synced := SynchronizeOf(t, owner.promptLength, owner.tokens, owner.decodedLength);
            synced == (if owner.promptLength == 0 then Some(owner) else None)
  {
    DecodingFromNothing(t, ops);
  }

  /** An owner that samples a token and moves its prompt boundary past it: the empty mirror refuses. */
  lemma EmptyMirrorRefuses(token: Token)
    ensures var ops := [AppendToken(token), SetPromptLength(1)];
            var owner := RunOps(Fresh(2), ops);
            && Aligned(Fresh(2)) && Fresh(2).turns == [] && DecodeOp(ops[0]) && DecodeOp(ops[1])
            && owner.tokens == [token] && owner.promptLength == 1 && owner.decodedLength == 1
            && SynchronizeOf(Fresh(2), owner.promptLength, owner.tokens, owner.decodedLength) == None
  {
    var append, move := AppendToken(token), SetPromptLength(1);
    assert Init([append, move]) == [append] && Init([append]) == [];
    assert RunOps(Fresh(2), [append]) == After(Fresh(2), append);
  }

  /** A decode phase on the owner, then one re-entry boundary seen by both ranks. */
  datatype Phase = Phase(ops: seq<Op>, reentry: int)

  function RunOwner(t: Trajectory, phases: seq<Phase>): Trajectory {
    if phases == [] then t
    else After(RunOps(RunOwner(t, Init(phases)), Last(phases).ops), BeginReentry(Last(phases).reentry))
  }

  /** The mirror never sees a token: only the owner's lengths and the shared bytes. */
  function RunMirror(t: Trajectory, phases: seq<Phase>): Option<Trajectory> {
    if phases == [] then Some(t)
    else
      var mirror := RunMirror(t, Init(phases));
      if mirror.None? then None
      else
        var owner := RunOps(RunOwner(t, Init(phases)), Last(phases).ops);
        var synced := SynchronizeOf(mirror.value, owner.promptLength, owner.tokens, owner.decodedLength);
        if synced.None? then None else Some(After(synced.value, BeginReentry(Last(phases).reentry)))
  }

  /** Both ranks hold equal slots across any number of decode phases and re-entries. */
  lemma {:induction false} MirrorsStayEqual(t: Trajectory, phases: seq<Phase>)
    requires Aligned(t) && t.turns != []
    requires forall i, j | 0 <= i < |phases| && 0 <= j < |phases[i].ops| :: DecodeOp(phases[i].ops[j])
    ensures RunMirror(t, phases) == Some(RunOwner(t, phases))
    ensures Aligned(RunOwner(t, phases)) && RunOwner(t, phases).turns != []
    decreases |phases|
  {
    if phases != [] {
      MirrorsStayEqual(t, Init(phases));
      assert Last(phases) == phases[|phases| - 1];
      hide Aligned, SynchronizeOf, RunOps, DecodeOp;
      PhaseKeepsEqual(RunOwner(t, Init(phases)), Last(phases));
    }
  }

  lemma PhaseKeepsEqual(before: Trajectory, phase: Phase)
    requires Aligned(before) && before.turns != [] && (forall j | 0 <= j < |phase.ops| :: DecodeOp(phase.ops[j]))
    ensures var owner := RunOps(before, phase.ops);
            && SynchronizeOf(before, owner.promptLength, owner.tokens, owner.decodedLength) == Some(owner)
            && Aligned(After(owner, BeginReentry(phase.reentry))) && After(owner, BeginReentry(phase.reentry)).turns != []
  {
    MirrorCatchesUp(before, phase.ops);
    DecodingOnlyCounts(before, phase.ops);
    hide Aligned, SynchronizeOf, RunOps, DecodeOp;
    var owner, op := RunOps(before, phase.ops), BeginReentry(phase.reentry);
    if Apply(owner, op).Some? { PromptOpKeeps(owner, op); }
  }

  /**
   Lengths taken over from an aligned slot leave an aligned ledger exactly when
   both lengths moved by the same amount; nothing in the call checks that.
   */
  lemma SynchronizeKeepsAlignmentIff(t: Trajectory, promptLength: int, shared: seq<Token>, decodedLength: int)
    requires Aligned(t) && t.turns != []
    requires SynchronizeOf(t, promptLength, shared, decodedLength).Some?
    ensures Aligned(SynchronizeOf(t, promptLength, shared, decodedLength).value)
            <==> |shared| - |t.tokens| == decodedLength - t.decodedLength
  {
    var t' := SynchronizeOf(t, promptLength, shared, decodedLength).value;
    assert TurnOk(t.turns, |t.turns| - 1, |t.tokens|);
    assert Init(t'.turns) == Init(t.turns);
    assert GeneratedTotal(t'.turns) == decodedLength;
    if |shared| - |t.tokens| == decodedLength - t.decodedLength {
      forall i | 0 <= i < |t'.turns|
        ensures TurnOk(t'.turns, i, |shared|)
      {
        assert TurnOk(t.turns, i, |t.tokens|);
        if i > 0 { assert TurnOk(t.turns, i - 1, |t.tokens|); }
        SpanEndsAscend(t.turns, |t.tokens|, i);
      }
    }
  }

  /** The ledger a synchronisation keeps then reads the old spans and, after them, everything beyond the old end. */
  lemma SynchronizedReads(t: Trajectory, promptLength: int, shared: seq<Token>, decodedLength: int)
    requires Aligned(t) && t.turns != [] && |t.tokens| <= |shared|
    requires SynchronizeOf(t, promptLength, shared, decodedLength).Some?
    requires |shared| - |t.tokens| == decodedLength - t.decodedLength
    ensures var synced := SynchronizeOf(t, promptLength, shared, decodedLength).value;
            && SpansWithin(t.turns, |shared|) && SpansWithin(synced.turns, |shared|)
            && Generated(shared, synced.turns) == Generated(shared, t.turns) + shared[|t.tokens|..]
  {
    var synced := SynchronizeOf(t, promptLength, shared, decodedLength).value;
    SynchronizeKeepsAlignmentIff(t, promptLength, shared, decodedLength);
    ValidSpans(t.turns, |t.tokens|, t.decodedLength);
    ValidSpans(synced.turns, |shared|, decodedLength);
    assert Init(synced.turns) == Init(t.turns) && Last(synced.turns).generatedStart == Last(t.turns).generatedStart;
    EndsMatch(t, synced, |shared|);
    hide Aligned, SynchronizeOf, SpansWithin;
    LastSpanGrows(shared, t.turns, synced.turns, |t.tokens|);
  }

  lemma LastSpanGrows(tokens: seq<Token>, turns: seq<Turn>, grown: seq<Turn>, n: nat)
    requires SpansWithin(turns, |tokens|) && SpansWithin(grown, |tokens|) && turns != [] && grown != []
    requires Init(grown) == Init(turns) && Last(grown).generatedStart == Last(turns).generatedStart
    requires Last(turns).GeneratedEnd() == n <= |tokens| == Last(grown).GeneratedEnd()
    ensures Generated(tokens, grown) == Generated(tokens, turns) + tokens[n..]
  {
    var start, before := Last(turns).generatedStart, Generated(tokens, Init(turns));
    assert tokens[start..n] + tokens[n..] == tokens[start..|tokens|];
    hide SpansWithin, Init, Last;
    assert before + (tokens[start..n] + tokens[n..]) == before + tokens[start..n] + tokens[n..];
  }

  lemma EndsMatch(t: Trajectory, synced: Trajectory, length: nat)
    requires Aligned(t) && Aligned(synced) && t.turns != [] && synced.turns != [] && |synced.tokens| == length
    ensures Last(t.turns).GeneratedEnd() == |t.tokens| && Last(synced.turns).GeneratedEnd() == length
  {
  }

  /** Two tokens more but only one of them decoded: the call goes through and the ledger stops short. */
  lemma SynchronizeAcceptsUnequalAdvance(t: Trajectory, a: Token, b: Token, c: Token)
    requires t == Trajectory([a], 1, 0, 4, [Turn(0, 0, 1, 1, 0)])
    ensures var synced := SynchronizeOf(t, 1, [a, b, c], 1);
            && Aligned(t)
            && synced == Some(Trajectory([a, b, c], 1, 1, 4, [Turn(0, 0, 1, 1, 1)]))
            && !Aligned(synced.value)
  {
    hide Aligned, SynchronizeOf;
    OnePromptIsAligned(t, a);
    UnequalAdvanceIsAccepted(t, a, b, c);
    SynchronizeKeepsAlignmentIff(t, 1, [a, b, c], 1);
  }

  lemma OnePromptIsAligned(t: Trajectory, a: Token)
    requires t == Trajectory([a], 1, 0, 4, [Turn(0, 0, 1, 1, 0)])
    ensures Aligned(t)
  {
    OneTurn(Turn(0, 0, 1, 1, 0));
    hide GeneratedTotal;
  }

  lemma UnequalAdvanceIsAccepted(t: Trajectory, a: Token, b: Token, c: Token)
    requires t == Trajectory([a], 1, 0, 4, [Turn(0, 0, 1, 1, 0)])
    ensures SynchronizeOf(t, 1, [a, b, c], 1) == Some(Trajectory([a, b, c], 1, 1, 4, [Turn(0, 0, 1, 1, 1)]))
  {
    OneTurn(t.turns[0]);
    hide GeneratedTotal, Init, Last;
    assert t.turns == [t.turns[0]];
    assert [] + [Turn(0, 0, 1, 1, 1)] == [Turn(0, 0, 1, 1, 1)];
    assert SyncedTurns(t.turns, 1, |[a, b, c]|, 1) == Some([Turn(0, 0, 1, 1, 1)]);
  }

  /** The same for any slot: without turns the fallback builds an aligned ledger or refuses. */
  lemma SynchronizeAlignsIff(t: Trajectory, promptLength: int, shared: seq<Token>, decodedLength: int)
    requires Aligned(t) && SynchronizeOf(t, promptLength, shared, decodedLength).Some?
    ensures Aligned(SynchronizeOf(t, promptLength, shared, decodedLength).value)
            <==> (t.turns != [] ==> |shared| - |t.tokens| == decodedLength - t.decodedLength)
  {
    if t.turns != [] {
      SynchronizeKeepsAlignmentIff(t, promptLength, shared, decodedLength);
    } else {
      OneTurn(Turn(0, 0, promptLength, promptLength, decodedLength));
    }
  }

  /** An accepted restore is aligned exactly when the ledger it was given, if any, runs to the last token. */
  lemma RestoreAlignsIff(t: Trajectory, tokens: seq<Token>, promptLength: int, decodedLength: int,
                         turns: Option<seq<Turn>>)
    requires RestoreOf(t, tokens, promptLength, decodedLength, turns).Some?
    ensures Aligned(RestoreOf(t, tokens, promptLength, decodedLength, turns).value)
            <==> (turns.Some? && turns.value != [] ==> Last(turns.value).GeneratedEnd() == |tokens|)
  {
    if turns.None? { OneTurn(Turn(0, 0, promptLength, promptLength, decodedLength)); }
  }

  lemma OneTurn(turn: Turn)
    ensures Init([turn]) == [] && Last([turn]) == turn && GeneratedTotal([]) == 0
    ensures GeneratedTotal([turn]) == turn.generatedLength
  {
    assert Init([turn]) == [];
  }

  lemma {:induction false} SpanEndsAscend(turns: seq<Turn>, length: nat, i: nat)
    requires i < |turns| && (forall k | 0 <= k < |turns| :: TurnOk(turns, k, length))
    ensures i < |turns| - 1 ==> turns[i].GeneratedEnd() <= Last(turns).generatedStart
    decreases |turns| - i
  {
    if i < |turns| - 1 {
      assert TurnOk(turns, i + 1, length);
      SpanEndsAscend(turns, length, i + 1);
    }
  }

  /** Numbered turns whose prompts precede their answers, the answers apart, in order and within the trajectory. */
  ghost predicate LaidOut(turns: seq<Turn>, length: nat) {
    && (forall i | 0 <= i < |turns| ::
          && turns[i].turnId == i && turns[i].promptStart >= 0 && turns[i].promptLength >= 0 && turns[i].generatedLength >= 0
          && turns[i].promptStart + turns[i].promptLength <= turns[i].generatedStart
          && turns[i].generatedStart + turns[i].generatedLength <= length)
    && (forall i, j | 0 <= i < j < |turns| ::
          turns[i].generatedStart + turns[i].generatedLength <= turns[j].generatedStart)
  }

  lemma {:induction false} AnswersApart(turns: seq<Turn>, length: nat, i: nat, j: nat)
    requires i < j < |turns| && (forall k | 0 <= k < |turns| :: TurnOk(turns, k, length))
    ensures turns[i].GeneratedEnd() <= turns[j].generatedStart
    decreases j
  {
    assert TurnOk(turns, j, length) && TurnOk(turns, j - 1, length);
    if i < j - 1 { AnswersApart(turns, length, i, j - 1); }
  }

  /** The check, which compares neighbours, decides the layout of the whole ledger. */
  lemma ValidTurnsIff(turns: seq<Turn>, length: nat, decodedLength: int)
    ensures ValidTurns(turns, length, decodedLength) <==>
              && LaidOut(turns, length) && (turns == [] ==> length == 0)
              && GeneratedTotal(turns) == decodedLength
  {
    hide GeneratedTotal;
    if forall i | 0 <= i < |turns| :: TurnOk(turns, i, length) {
      forall i, j | 0 <= i < j < |turns|
        ensures turns[i].generatedStart + turns[i].generatedLength <= turns[j].generatedStart
      {
        AnswersApart(turns, length, i, j);
      }
      forall i | 0 <= i < |turns|
        ensures turns[i].turnId == i && turns[i].promptStart >= 0 && turns[i].promptLength >= 0 && turns[i].generatedLength >= 0
        ensures turns[i].promptStart + turns[i].promptLength <= turns[i].generatedStart
        ensures turns[i].generatedStart + turns[i].generatedLength <= length
      {
        assert TurnOk(turns, i, length);
      }
      assert LaidOut(turns, length);
    }
    if LaidOut(turns, length) {
      forall i | 0 <= i < |turns| ensures TurnOk(turns, i, length) {}
    }
  }

  // ---- the migration check as the source runs it ---------------------------

  method ValidateTurns(turns: seq<Turn>, length: nat, decodedLength: int) returns (ok: bool)
    ensures ok <==> ValidTurns(turns, length, decodedLength)
    ensures ok <==> LaidOut(turns, length) && (turns == [] ==> length == 0) && GeneratedTotal(turns) == decodedLength
  {
    ValidTurnsIff(turns, length, decodedLength);
    hide LaidOut;
    var total, previousEnd := 0, 0;
    for i := 0 to |turns|
      invariant forall k | 0 <= k < i :: TurnOk(turns, k, length)
      invariant total == GeneratedTotal(turns[..i])
      invariant previousEnd == if i == 0 then 0 else turns[i - 1].GeneratedEnd()
    {
      var turn := turns[i];
      if turn.turnId != i {
        assert !TurnOk(turns, i, length);
        return false;
      }
      if turn.promptStart < 0 || turn.promptLength < 0 || turn.generatedStart < 0 || turn.generatedLength < 0 {
        assert !TurnOk(turns, i, length);
        return false;
      }
      if turn.PromptEnd() > length || turn.GeneratedEnd() > length {
        assert !TurnOk(turns, i, length);
        return false;
      }
      if turn.PromptEnd() > turn.generatedStart || turn.generatedStart < previousEnd {
        assert !TurnOk(turns, i, length);
        return false;
      }
      total := total + turn.generatedLength;
      previousEnd := turn.GeneratedEnd();
      assert Init(turns[..i + 1]) == turns[..i];
    }
    assert turns[..|turns|] == turns;
    if turns == [] && (length != 0 || decodedLength != 0) {
      return false;
    }
    return total == decodedLength;
  }
}
