/**
 Conversation history (src/daily_agent/services.py:729-804, src/daily_agent/gateway/service.py:58-69): which earlier turns
 accompany a message, and why the request built from them always fits the plan and both provider adapters.
 */
module History {
  import opened Options

  datatype Role = System | User | Assistant

  datatype Turn = Turn(role: Role, content: string)

  datatype Plan = Plan(inputTokens: nat, outputTokens: nat)

  const ANANTA := Plan(4_000, 4_096)
  const YANTA := Plan(8_000, 4_096)
  const TRIKA := Plan(16_000, 4_096)
  const PARTH := Plan(32_000, 4_096)
  const PLANS := {ANANTA, YANTA, TRIKA, PARTH}

  const MAX_TEXT_CHARS := 20_000
  const MAX_HISTORY_TURNS := 20
  const ADAPTER_PROMPT_CHARS := 120_000
  const OPENCODE_PROMPT_CHARS := 40_000
  const HISTORY_REQUEST_CAP_BYTES := OPENCODE_PROMPT_CHARS
  const MAX_OUTPUT_TOKENS := 4_096
  const MAX_MESSAGES := 32

  // ---------- Sizes ----------

  function CharBytes(c: char): nat {
    var k := c as int;
    if k < 0x80 then 1 else if k < 0x800 then 2 else if k < 0x1_0000 then 3 else 4
  }

  function Utf8Len(s: string): (n: nat)
    ensures |s| <= n
  {
    if s == "" then 0 else CharBytes(s[0]) + Utf8Len(s[1..])
  }

  function BytesOf(turns: seq<Turn>): nat {
    if turns == [] then 0 else Utf8Len(turns[0].content) + BytesOf(turns[1..])
  }

  function CharsOf(turns: seq<Turn>): nat {
    if turns == [] then 0 else |turns[0].content| + CharsOf(turns[1..])
  }

  lemma {:induction false} SizesSplit(a: seq<Turn>, b: seq<Turn>)
    ensures BytesOf(a + b) == BytesOf(a) + BytesOf(b)
    ensures CharsOf(a + b) == CharsOf(a) + CharsOf(b)
  {
    if a == [] {
      assert a + b == b;
    } else {
      SizesSplit(a[1..], b);
      assert (a + b)[1..] == a[1..] + b;
    }
  }

  lemma {:induction false} CharsAtMostBytes(turns: seq<Turn>)
    ensures CharsOf(turns) <= BytesOf(turns)
  {
    if turns != [] {
      CharsAtMostBytes(turns[1..]);
    }
  }

  // ---------- The system prompt ----------

  const BASE_PROMPT_CHARS := 719

  const WEEKDAYS := ["Monday", "Tuesday", "Wednesday", "Thursday", "Friday", "Saturday", "Sunday"]
  const MONTHS := ["January", "February", "March", "April", "May", "June",
                   "July", "August", "September", "October", "November", "December"]

  /** A moment in Indian Standard Time; weekday and month count from 0. */
  datatype Moment = Moment(weekday: nat, day: nat, month: nat, year: nat, hour: nat, minute: nat) {
    predicate Valid() { weekday < 7 && 1 <= day <= 31 && month < 12 && 1000 <= year <= 9999 && hour < 24 && minute < 60 }
  }

  function Digit(n: nat): string requires n < 10 { [('0' as int + n) as char] }

  function Decimal(n: nat): string {
    if n < 10 then Digit(n) else Decimal(n / 10) + Digit(n % 10)
  }

  function TwoDigits(n: nat): string requires n < 100 { Digit(n / 10) + Digit(n % 10) }

  function BuildSystemPrompt(base: string, now: Moment): string
    requires now.Valid()
  {
    base + "\nCurrent date and time: " + WEEKDAYS[now.weekday] + ", " + Decimal(now.day) + " " + MONTHS[now.month] + " "
    + Decimal(now.year) + ", " + TwoDigits(now.hour) + ":" + TwoDigits(now.minute) + " IST (Asia/Kolkata, UTC+05:30)."
  }

  /** Wednesday 30 September 2026, 12:00 in Indian Standard Time. */
  const LONGEST := Moment(2, 30, 8, 2026, 12, 0)

  function SystemPromptMaxChars(base: string): nat {
    |BuildSystemPrompt(base, LONGEST)|
  }

  lemma DecimalLength(n: nat)
    ensures n < 10 ==> |Decimal(n)| == 1
    ensures 10 <= n < 100 ==> |Decimal(n)| == 2
    ensures 1000 <= n <= 9999 ==> |Decimal(n)| == 4
  {
    if n >= 10 {
      assert n < 100 ==> n / 10 < 10;
      if n >= 1000 && n <= 9999 {
        assert |Decimal(n / 100)| == 2;
        assert n / 10 / 10 == n / 100;
      }
    }
  }

  lemma NamesAreShort(i: nat)
    ensures i < 7 ==> |WEEKDAYS[i]| <= 9
    ensures i < 12 ==> |MONTHS[i]| <= 9
    ensures |WEEKDAYS[2]| == 9 && |MONTHS[8]| == 9
  {
  }

  /** No moment makes the prompt longer than the one it is budgeted by. */
  lemma PromptIsBudgeted(base: string, now: Moment)
    requires now.Valid()
    ensures |BuildSystemPrompt(base, now)| <= SystemPromptMaxChars(base) == |base| + 90
  {
    DecimalLength(now.day);
    DecimalLength(now.year);
    DecimalLength(30);
    DecimalLength(2026);
    NamesAreShort(now.weekday);
    NamesAreShort(now.month);
    PromptLength(base, now);
    PromptLength(base, LONGEST);
  }

  lemma PromptLength(base: string, now: Moment)
    requires now.Valid()
    ensures |BuildSystemPrompt(base, now)|
         == |base| + 66 + |WEEKDAYS[now.weekday]| + |Decimal(now.day)| + |MONTHS[now.month]| + |Decimal(now.year)|
  {
    assert |"\nCurrent date and time: "| == 24;
    assert |" IST (Asia/Kolkata, UTC+05:30)."| == 31;
    assert |TwoDigits(now.hour)| == 2 && |TwoDigits(now.minute)| == 2;
  }

  // ---------- Trimming ----------

  function TotalBytes(plan: Plan): nat {
    if plan.inputTokens * 4 <= HISTORY_REQUEST_CAP_BYTES then plan.inputTokens * 4 else HISTORY_REQUEST_CAP_BYTES
  }

  /** Bytes left for history; negative when the message alone does not fit. */
  function Budget(plan: Plan, promptMax: nat, text: string): int {
    TotalBytes(plan) - promptMax - Utf8Len(text)
  }

  /** `kept` is the newest turns of `history`, as many as fit; none when the budget is negative. */
  predicate IsLongestFit(kept: seq<Turn>, history: seq<Turn>, budget: int) {
    && |kept| <= |history| && kept == history[|history| - |kept|..]
    && (kept != [] ==> BytesOf(kept) <= budget)
    && forall i :: 0 <= i < |history| - |kept| ==> BytesOf(history[i..]) > budget
  }

  method TrimHistory(history: seq<Turn>, promptMax: nat, text: string, plan: Plan) returns (kept: seq<Turn>)
    ensures IsLongestFit(kept, history, Budget(plan, promptMax, text))
  {
    var budget := Budget(plan, promptMax, text);
    var left := budget;
    kept := [];
    var i := |history|;
    while i > 0
      invariant 0 <= i <= |history| && kept == history[i..]
      invariant left == budget - BytesOf(kept) && (kept != [] ==> left >= 0)
    {
      var turn := history[i - 1];
      assert history[i - 1..] == [turn] + history[i..];
      if Utf8Len(turn.content) > left {
        forall j | 0 <= j < i ensures BytesOf(history[j..]) > budget {
          assert history[j..] == history[j..i - 1] + history[i - 1..];
          SizesSplit(history[j..i - 1], history[i - 1..]);
        }
        return;
      }
      left := left - Utf8Len(turn.content);
      kept := [turn] + kept;
      i := i - 1;
    }
  }

  /** The longest fit is unique, so it is what the loop returns. */
  lemma LongestFitIsUnique(a: seq<Turn>, b: seq<Turn>, history: seq<Turn>, budget: int)
    requires IsLongestFit(a, history, budget) && IsLongestFit(b, history, budget)
    ensures a == b
  {
    assert history[|history| - |a|..] == a && history[|history| - |b|..] == b;
  }

  // ---------- The request that is sent ----------

  function Max(a: int, b: int): int { if a >= b then a else b }

  function PromptTokens(systemPrompt: string, history: seq<Turn>, text: string): nat {
    Max(1, (Utf8Len(text) + |systemPrompt| + BytesOf(history)) / 4)
  }

  /** The token hold of a live message. */
  function TokenHold(plan: Plan, history: seq<Turn>, text: string): nat {
    Max(1, Utf8Len(text) / 4 + BytesOf(history) / 4) + plan.outputTokens
  }

  function Messages(systemPrompt: string, history: seq<Turn>, text: string): seq<Turn> {
    [Turn(System, systemPrompt)] + history + [Turn(User, text)]
  }

  datatype Refusal = OutputLimit | MessageCount | PromptTooLarge

  /** The bounds both adapters check before sending; roles and plain text hold by construction. */
  function Validate(messages: seq<Turn>, maxOutputTokens: nat, maxChars: nat): Option<Refusal> {
    if !(1 <= maxOutputTokens <= MAX_OUTPUT_TOKENS) then Some(OutputLimit)
    else if messages == [] || |messages| > MAX_MESSAGES then Some(MessageCount)
    else if CharsOf(messages) > maxChars then Some(PromptTooLarge)
    else None
  }

  lemma MessagesChars(systemPrompt: string, history: seq<Turn>, text: string)
    ensures CharsOf(Messages(systemPrompt, history, text)) == |systemPrompt| + CharsOf(history) + |text|
  {
    SizesSplit([Turn(System, systemPrompt)] + history, [Turn(User, text)]);
    SizesSplit([Turn(System, systemPrompt)], history);
  }

  /** When the message fits, what is sent fits the plan's input tokens and is covered by the token hold's share of them. */
  lemma PromptFitsThePlan(systemPrompt: string, promptMax: nat, kept: seq<Turn>, history: seq<Turn>, text: string, plan: Plan)
    requires |systemPrompt| <= promptMax && plan.inputTokens >= 1
    requires IsLongestFit(kept, history, Budget(plan, promptMax, text)) && Budget(plan, promptMax, text) >= 0
    ensures PromptTokens(systemPrompt, kept, text) <= plan.inputTokens
    ensures TokenHold(plan, kept, text) <= plan.inputTokens + plan.outputTokens
  {
    assert BytesOf([]) == 0;
    assert Utf8Len(text) + promptMax + BytesOf(kept) <= plan.inputTokens * 4;
  }

  /** Neither adapter refuses a request that the guards let through, whatever the plan and the history. */
  lemma AdaptersAccept(systemPrompt: string, promptMax: nat, kept: seq<Turn>, history: seq<Turn>, text: string, plan: Plan)
    requires |systemPrompt| <= promptMax <= OPENCODE_PROMPT_CHARS - MAX_TEXT_CHARS && plan in PLANS
    requires |text| <= MAX_TEXT_CHARS && |history| <= MAX_HISTORY_TURNS
    requires IsLongestFit(kept, history, Budget(plan, promptMax, text))
    ensures Validate(Messages(systemPrompt, kept, text), plan.outputTokens, ADAPTER_PROMPT_CHARS).None?
    ensures Validate(Messages(systemPrompt, kept, text), plan.outputTokens, OPENCODE_PROMPT_CHARS).None?
  {
    MessagesChars(systemPrompt, kept, text);
    CharsAtMostBytes(kept);
    assert CharsOf([]) == 0;
  }

  /** At any moment, with a base prompt of the length the program's has. */
  lemma RequestsAreAlwaysAccepted(base: string, now: Moment, kept: seq<Turn>, history: seq<Turn>, text: string, plan: Plan)
    requires |base| == BASE_PROMPT_CHARS && now.Valid() && plan in PLANS
    requires |text| <= MAX_TEXT_CHARS && |history| <= MAX_HISTORY_TURNS
    requires IsLongestFit(kept, history, Budget(plan, SystemPromptMaxChars(base), text))
    ensures Validate(Messages(BuildSystemPrompt(base, now), kept, text), plan.outputTokens, OPENCODE_PROMPT_CHARS).None?
    ensures Budget(plan, SystemPromptMaxChars(base), text) >= 0 ==>
              PromptTokens(BuildSystemPrompt(base, now), kept, text) <= plan.inputTokens
  {
    var systemPrompt, promptMax := BuildSystemPrompt(base, now), SystemPromptMaxChars(base);
    PromptIsBudgeted(base, now);
    AdaptersAccept(systemPrompt, promptMax, kept, history, text, plan);
    if Budget(plan, promptMax, text) >= 0 {
      PromptFitsThePlan(systemPrompt, promptMax, kept, history, text, plan);
    }
  }

  /** Nothing is kept exactly when the newest turn does not fit beside the message. */
  lemma NothingKeptIff(kept: seq<Turn>, history: seq<Turn>, budget: int)
    requires IsLongestFit(kept, history, budget)
    ensures kept == [] <==> history == [] || Utf8Len(history[|history| - 1].content) > budget
  {
    if history != [] {
      var newest := history[|history| - 1..];
      assert BytesOf(newest) == Utf8Len(newest[0].content) + BytesOf(newest[1..]);
      if kept != [] {
        assert kept == history[|history| - |kept|..|history| - 1] + newest;
        SizesSplit(history[|history| - |kept|..|history| - 1], newest);
      }
    }
  }

  // ---------- Sizes, said without the code's own arithmetic ----------

  /** How many code points fit `n` bytes of UTF-8: 7, 11, 16 and 21 bits. */
  function Utf8Capacity(n: nat): nat {
    if n == 0 then 0 else if n == 1 then 128 else if n == 2 then 2_048 else if n == 3 then 65_536 else 2_097_152
  }

  /** A character takes the fewest bytes that hold it. */
  lemma CharBytesAreFewest(c: char, n: nat)
    ensures n >= CharBytes(c) <==> (c as int) < Utf8Capacity(n)
  {
  }

  /**
   What is kept of a conversation: as many of its newest turns as fit, in bytes and with the longest system prompt and the
   message beside them, four times the plan's input tokens and 40,000; one turn more would not fit.
   */
  lemma TurnsAreDroppedOnlyForRoom(kept: seq<Turn>, history: seq<Turn>, promptMax: nat, text: string, plan: Plan, older: nat)
    requires IsLongestFit(kept, history, Budget(plan, promptMax, text))
    ensures kept != [] ==> promptMax + Utf8Len(text) + BytesOf(kept) <= 4 * plan.inputTokens
    ensures kept != [] ==> promptMax + Utf8Len(text) + BytesOf(kept) <= 40_000
    ensures |kept| < older <= |history| ==>
              var more := history[|history| - older..];
              || promptMax + Utf8Len(text) + BytesOf(more) > 4 * plan.inputTokens
              || promptMax + Utf8Len(text) + BytesOf(more) > 40_000
  {
  }

  /** Estimates are whole quarters of bytes, and never nothing. */
  lemma EstimatesAreQuarters(systemPrompt: string, history: seq<Turn>, text: string, plan: Plan)
    ensures var bytes, tokens := Utf8Len(text) + |systemPrompt| + BytesOf(history), PromptTokens(systemPrompt, history, text);
            tokens >= 1 && bytes < 4 * tokens + 4 && (4 * tokens <= bytes || tokens == 1)
    ensures var bytes, tokens := Utf8Len(text) + BytesOf(history), TokenHold(plan, history, text) - plan.outputTokens;
            tokens >= 1 && bytes < 4 * tokens + 7 && (4 * tokens <= bytes || tokens == 1)
  {
  }

  /** A request lists the system prompt, then the turns kept, oldest first, and then the message. */
  lemma MessagesAreInOrder(systemPrompt: string, history: seq<Turn>, text: string)
    ensures var messages := Messages(systemPrompt, history, text);
            && |messages| == |history| + 2 && messages[0] == Turn(System, systemPrompt)
            && messages[|messages| - 1] == Turn(User, text) && messages[1..|messages| - 1] == history
  {
    assert Messages(systemPrompt, history, text)[1..|history| + 1] == history;
  }

  /** An adapter sends exactly the requests of 1 to 4,096 output tokens and 1 to 32 messages within its characters. */
  lemma ValidIff(messages: seq<Turn>, maxOutputTokens: nat, maxChars: nat)
    ensures Validate(messages, maxOutputTokens, maxChars).None?
       <==> 1 <= maxOutputTokens <= 4_096 && 1 <= |messages| <= 32 && CharsOf(messages) <= maxChars
  {
  }
}
