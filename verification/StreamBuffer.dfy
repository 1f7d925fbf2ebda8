/** The process-local assistant stream: a bounded log per stream, read with string cursors. */
module StreamBuffer {
  import opened Common
  import opened Text

  type StreamId = string
  type Payload = int

  datatype Message = Message(id: string, event: Payload)

  const CAPACITY: nat := 1000
  const CLOCK_DIGITS: nat := 20
  const SEQUENCE_DIGITS: nat := 6

  // ---------- Event ids ----------

  function Digit(d: nat): char
    requires d < 10
  {
    '0' + d as char
  }

  function Pow10(k: nat): nat { if k == 0 then 1 else 10 * Pow10(k - 1) }

  /** The last `width` decimal digits of n. */
  function LastDigits(n: nat, width: nat): string {
    if width == 0 then "" else LastDigits(n / 10, width - 1) + [Digit(n % 10)]
  }

  function Decimal(n: nat): string {
    if n < 10 then [Digit(n)] else Decimal(n / 10) + [Digit(n % 10)]
  }

  /** `f"{n:0{width}d}"`: zero-padded to the width, longer when the number needs more digits. */
  function Padded(n: nat, width: nat): string {
    if n < Pow10(width) then LastDigits(n, width) else Decimal(n)
  }

  function EventId(now: nat, sequence: nat): string {
    Padded(now, CLOCK_DIGITS) + "-" + Padded(sequence, SEQUENCE_DIGITS)
  }

  lemma {:induction false} LessWithTails(p: string, q: string, x: string, y: string)
    requires |p| == |q| && Less(p, q)
    ensures Less(p + x, q + y)
  {
    assert (p + x)[1..] == p[1..] + x && (q + y)[1..] == q[1..] + y;
    if p[0] == q[0] { LessWithTails(p[1..], q[1..], x, y); }
  }

  lemma {:induction false} LessAfterPrefix(p: string, x: string, y: string)
    ensures Less(p + x, p + y) <==> Less(x, y)
  {
    if p == "" {
      assert p + x == x && p + y == y;
    } else {
      assert (p + x)[1..] == p[1..] + x && (p + y)[1..] == p[1..] + y;
      LessAfterPrefix(p[1..], x, y);
    }
  }

  lemma {:induction false} LastDigitsLength(n: nat, width: nat)
    ensures |LastDigits(n, width)| == width
  {
    if width > 0 { LastDigitsLength(n / 10, width - 1); }
  }

  /** Within the width, zero-padded numbers are ordered as strings like the numbers they show. */
  lemma {:induction false} PaddedOrder(a: nat, b: nat, width: nat)
    requires a < b < Pow10(width)
    ensures Less(LastDigits(a, width), LastDigits(b, width))
  {
    var p, q := LastDigits(a / 10, width - 1), LastDigits(b / 10, width - 1);
    LastDigitsLength(a / 10, width - 1);
    LastDigitsLength(b / 10, width - 1);
    if a / 10 < b / 10 {
      PaddedOrder(a / 10, b / 10, width - 1);
      LessWithTails(p, q, [Digit(a % 10)], [Digit(b % 10)]);
    } else {
      LessAfterPrefix(p, [Digit(a % 10)], [Digit(b % 10)]);
    }
  }

  lemma {:induction false} PowerOfTenStartsWithOne(k: nat)
    ensures Decimal(Pow10(k)) != "" && Decimal(Pow10(k))[0] == '1'
  {
    if k > 0 { PowerOfTenStartsWithOne(k - 1); }
  }

  lemma {:induction false} LargestStartsWithNine(k: nat)
    requires k > 0
    ensures Pow10(k) >= 1 && LastDigits(Pow10(k) - 1, k) != "" && LastDigits(Pow10(k) - 1, k)[0] == '9'
  {
    if k > 1 {
      LargestStartsWithNine(k - 1);
      assert (Pow10(k) - 1) / 10 == Pow10(k - 1) - 1;
    } else {
      assert LastDigits(9, 1) == LastDigits(0, 0) + [Digit(9)];
    }
  }

  /** Two consecutive ids of a stream increase as strings exactly when the clock moved or the
      sequence number still fits its six digits. */
  lemma ConsecutiveIds(now: nat, later: nat, sequence: nat)
    requires now <= later < Pow10(CLOCK_DIGITS) && sequence < Pow10(SEQUENCE_DIGITS)
    ensures Less(EventId(now, sequence), EventId(later, sequence + 1)) <==>
            now < later || sequence + 1 < Pow10(SEQUENCE_DIGITS)
  {
    if now < later {
      IdsFollowClock(now, later, sequence, sequence + 1);
    } else {
      NextNumber(sequence);
      LessAfterPrefix(Padded(now, CLOCK_DIGITS) + "-", Padded(sequence, SEQUENCE_DIGITS), Padded(sequence + 1, SEQUENCE_DIGITS));
    }
  }

  /** Counting up keeps the string order until the digits run out. */
  lemma NextNumber(sequence: nat)
    requires sequence < Pow10(SEQUENCE_DIGITS)
    ensures Less(Padded(sequence, SEQUENCE_DIGITS), Padded(sequence + 1, SEQUENCE_DIGITS)) <==>
            sequence + 1 < Pow10(SEQUENCE_DIGITS)
  {
    if sequence + 1 < Pow10(SEQUENCE_DIGITS) {
      PaddedOrder(sequence, sequence + 1, SEQUENCE_DIGITS);
    } else {
      PowerOfTenStartsWithOne(SEQUENCE_DIGITS);
      LargestStartsWithNine(SEQUENCE_DIGITS);
    }
  }

  lemma IdsFollowClock(now: nat, later: nat, s: nat, t: nat)
    requires now < later < Pow10(CLOCK_DIGITS)
    ensures Less(EventId(now, s), EventId(later, t))
  {
    var p, q := Padded(now, CLOCK_DIGITS), Padded(later, CLOCK_DIGITS);
    PaddedOrder(now, later, CLOCK_DIGITS);
    LastDigitsLength(now, CLOCK_DIGITS);
    LastDigitsLength(later, CLOCK_DIGITS);
    LessWithTails(p, q, "-" + Padded(s, SEQUENCE_DIGITS), "-" + Padded(t, SEQUENCE_DIGITS));
    assert p + ("-" + Padded(s, SEQUENCE_DIGITS)) == EventId(now, s);
    assert q + ("-" + Padded(t, SEQUENCE_DIGITS)) == EventId(later, t);
  }

  lemma IdsFollowSequence(now: nat, s: nat, t: nat)
    requires s < t < Pow10(SEQUENCE_DIGITS)
    ensures Less(EventId(now, s), EventId(now, t))
  {
    PaddedOrder(s, t, SEQUENCE_DIGITS);
    LessAfterPrefix(Padded(now, CLOCK_DIGITS) + "-", Padded(s, SEQUENCE_DIGITS), Padded(t, SEQUENCE_DIGITS));
  }

  // ---------- One stream: the full log, the buffer, and reading ----------

  /** Everything ever published on a stream: message k carries sequence number k + 1. */
  function FullLog(times: seq<nat>, events: seq<Payload>): (log: seq<Message>)
    requires |times| == |events|
    ensures |log| == |times|
  {
    seq(|times|, k requires 0 <= k < |times| => Message(EventId(times[k], k + 1), events[k]))
  }

  /** `del events[:-1000]` after every append. */
  function Newest(log: seq<Message>): seq<Message> {
    if |log| > CAPACITY then log[|log| - CAPACITY..] else log
  }

  predicate FromStart(after: string) { after == "" || after == "-" || after == "0" }

  /** The replay filter. */
  predicate Passes(after: string, id: string) { FromStart(after) || Less(after, id) }

  function Replay(buffer: seq<Message>, after: string): seq<Message> {
    if buffer == [] then []
    else
      var last := buffer[|buffer| - 1];
      Replay(buffer[..|buffer| - 1], after) + (if Passes(after, last.id) then [last] else [])
  }

  ghost predicate InOrder(log: seq<Message>) {
    forall i, j | 0 <= i < j < |log| :: Less(log[i].id, log[j].id)
  }

  ghost predicate IdsIncrease(log: seq<Message>) {
    InOrder(log) && forall i | 0 <= i < |log| :: !FromStart(log[i].id)
  }

  lemma EventIdOrder(now: nat, later: nat, s: nat, t: nat)
    requires now <= later < Pow10(CLOCK_DIGITS) && s < t < Pow10(SEQUENCE_DIGITS)
    ensures Less(EventId(now, s), EventId(later, t))
  {
    if now < later { IdsFollowClock(now, later, s, t); } else { IdsFollowSequence(now, s, t); }
  }

  lemma EventIdIsNoMarker(now: nat, s: nat)
    requires now < Pow10(CLOCK_DIGITS)
    ensures !FromStart(EventId(now, s))
  {
    LastDigitsLength(now, CLOCK_DIGITS);
  }

  lemma EventIdOrderIff(now: nat, later: nat, s: nat, t: nat)
    requires now < Pow10(CLOCK_DIGITS) && later < Pow10(CLOCK_DIGITS) && s < t < Pow10(SEQUENCE_DIGITS)
    ensures Less(EventId(now, s), EventId(later, t)) <==> now <= later
  {
    if now <= later {
      EventIdOrder(now, later, s, t);
    } else {
      IdsFollowClock(later, now, t, s);
      LessIsAsymmetric(EventId(later, t), EventId(now, s));
    }
  }

  lemma {:induction false} LessIsAsymmetric(a: string, b: string)
    requires Less(a, b)
    ensures !Less(b, a)
  {
    LessIsIrreflexive(a);
    if Less(b, a) { LessIsTransitive(a, b, a); }
  }

  /** With a non-decreasing clock and fewer than a million events, ids strictly increase as strings
      along the whole stream, and none looks like a start marker. */
  lemma IdsAreIncreasing(times: seq<nat>, events: seq<Payload>)
    requires |times| == |events| < Pow10(SEQUENCE_DIGITS)
    requires forall i, j | 0 <= i < j < |times| :: times[i] <= times[j]
    requires forall i | 0 <= i < |times| :: times[i] < Pow10(CLOCK_DIGITS)
    ensures IdsIncrease(FullLog(times, events))
  {
    FullLogInOrder(times, events);
    forall i | 0 <= i < |times| ensures !FromStart(FullLog(times, events)[i].id) {
      EventIdIsNoMarker(times[i], i + 1);
    }
  }

  lemma FullLogInOrder(times: seq<nat>, events: seq<Payload>)
    requires |times| == |events| < Pow10(SEQUENCE_DIGITS)
    requires forall i, j | 0 <= i < j < |times| :: times[i] <= times[j]
    requires forall i | 0 <= i < |times| :: times[i] < Pow10(CLOCK_DIGITS)
    ensures InOrder(FullLog(times, events))
  {
    var log := FullLog(times, events);
    forall i, j | 0 <= i < j < |log| ensures Less(log[i].id, log[j].id) {
      MessagesInOrder(log[i], log[j], times[i], times[j], i + 1, j + 1);
    }
  }

  ghost predicate NeverStepsBack(times: seq<nat>) {
    forall i, j | 0 <= i < j < |times| :: times[i] <= times[j]
  }

  lemma OrderShowsClock(a: Message, b: Message, now: nat, later: nat, s: nat, t: nat)
    requires a.id == EventId(now, s) && b.id == EventId(later, t) && Less(a.id, b.id)
    requires now < Pow10(CLOCK_DIGITS) && later < Pow10(CLOCK_DIGITS) && s < t < Pow10(SEQUENCE_DIGITS)
    ensures now <= later
  {
    EventIdOrderIff(now, later, s, t);
  }

  /** With fewer than a million events, the ids of a stream strictly increase exactly when the wall clock
      never stepped back between them. */
  lemma IdsIncreaseIffClockDoes(times: seq<nat>, events: seq<Payload>)
    requires |times| == |events| < Pow10(SEQUENCE_DIGITS)
    requires forall i | 0 <= i < |times| :: times[i] < Pow10(CLOCK_DIGITS)
    ensures IdsIncrease(FullLog(times, events)) <==> NeverStepsBack(times)
  {
    if NeverStepsBack(times) { IdsAreIncreasing(times, events); }
    var log := FullLog(times, events);
    if IdsIncrease(log) {
      forall i, j | 0 <= i < j < |times| ensures times[i] <= times[j] {
        OrderShowsClock(log[i], log[j], times[i], times[j], i + 1, j + 1);
      }
    }
  }

  lemma MessagesInOrder(a: Message, b: Message, now: nat, later: nat, s: nat, t: nat)
    requires a.id == EventId(now, s) && b.id == EventId(later, t)
    requires now <= later < Pow10(CLOCK_DIGITS) && s < t < Pow10(SEQUENCE_DIGITS)
    ensures Less(a.id, b.id)
  {
    EventIdOrder(now, later, s, t);
  }

  /** The cursor of a reader that has read the first `read` messages. */
  function Cursor(log: seq<Message>, read: nat): string
    requires read <= |log|
  {
    if read == 0 then "-" else log[read - 1].id
  }

  /** The cursor lets through exactly the messages not yet read. */
  ghost predicate CursorSeparates(log: seq<Message>, after: string, read: nat) {
    forall k | 0 <= k < |log| :: Passes(after, log[k].id) <==> read <= k
  }

  lemma CursorWorks(log: seq<Message>, read: nat)
    requires IdsIncrease(log) && read <= |log|
    ensures CursorSeparates(log, Cursor(log, read), read)
  {
    var after := Cursor(log, read);
    forall k | 0 <= k < |log| ensures Passes(after, log[k].id) <==> read <= k {
      if k < read { NotAfter(log, read - 1, k); }
    }
  }

  lemma NotAfter(log: seq<Message>, i: nat, k: nat)
    requires IdsIncrease(log) && k <= i < |log|
    ensures !Less(log[i].id, log[k].id)
  {
    LessIsIrreflexive(log[k].id);
    if k < i && Less(log[i].id, log[k].id) {
      LessIsTransitive(log[k].id, log[i].id, log[k].id);
      assert false;
    }
  }

  /** Reading a buffer whose first `cut` messages are stopped by the cursor and the rest passed. */
  lemma {:induction false} ReplayCuts(buffer: seq<Message>, after: string, cut: nat)
    requires cut <= |buffer| && CursorSeparates(buffer, after, cut)
    ensures Replay(buffer, after) == buffer[cut..]
  {
    if buffer != [] {
      var n := |buffer| - 1;
      if cut <= n {
        ReplayCuts(buffer[..n], after, cut);
        assert buffer[cut..] == buffer[..n][cut..] + [buffer[n]];
      } else {
        ReplayCuts(buffer[..n], after, n);
      }
    }
  }

  lemma DropSeparates(log: seq<Message>, after: string, read: nat, from: nat)
    requires CursorSeparates(log, after, read) && from <= |log|
    ensures CursorSeparates(log[from..], after, if read <= from then 0 else read - from)
  {
  }

  /** A poll returns, in order, exactly what was published since the last one; when the reader is
      more than a thousand messages behind it returns exactly the newest thousand. */
  lemma PollReturnsUnread(log: seq<Message>, read: nat)
    requires IdsIncrease(log) && read <= |log|
    ensures Replay(Newest(log), Cursor(log, read)) ==
            (if |log| - read <= CAPACITY then log[read..] else log[|log| - CAPACITY..])
  {
    var from := if |log| > CAPACITY then |log| - CAPACITY else 0;
    var newest, after, cut := Newest(log), Cursor(log, read), if read <= from then 0 else read - from;
    assert newest == log[from..];
    CursorWorks(log, read);
    DropSeparates(log, after, read, from);
    ReplayCuts(newest, after, cut);
    assert newest[cut..] == log[from + cut..];
  }

  /** The buffer is the newest thousand messages, or all of them. */
  lemma NewestThousand(log: seq<Message>)
    ensures |Newest(log)| == if |log| > 1000 then 1000 else |log|
    ensures Newest(log) == log[|log| - |Newest(log)|..]
  {
  }

  /** Each of the three start markers replays the whole buffer. */
  lemma {:induction false} MarkersReplayAll(buffer: seq<Message>, marker: string)
    requires marker in {"", "-", "0"}
    ensures Replay(buffer, marker) == buffer
  {
    if buffer != [] {
      MarkersReplayAll(buffer[..|buffer| - 1], marker);
      assert buffer == buffer[..|buffer| - 1] + [buffer[|buffer| - 1]];
    }
  }

  // ---------- Reading ids ----------

  /** The number a string of decimal digits shows. */
  function NumberOf(digits: string): int {
    if digits == "" then 0 else 10 * NumberOf(digits[..|digits| - 1]) + (digits[|digits| - 1] as int - '0' as int)
  }

  lemma {:induction false} DigitsRead(n: nat, width: nat)
    requires n < Pow10(width)
    ensures NumberOf(LastDigits(n, width)) == n
  {
    if width > 0 {
      DigitsRead(n / 10, width - 1);
      var front := LastDigits(n / 10, width - 1);
      assert LastDigits(n, width)[..|front|] == front;
    }
  }

  /** An id of a nanosecond clock and a six-digit number has 27 characters and shows both. */
  lemma IdsAreRead(now: nat, sequence: nat)
    requires now < Pow10(20) && sequence < Pow10(6)
    ensures var id := EventId(now, sequence);
            |id| == 27 && NumberOf(id[..20]) == now && id[20] == '-' && NumberOf(id[21..]) == sequence
  {
    var front, back := LastDigits(now, 20), LastDigits(sequence, 6);
    LastDigitsLength(now, 20);
    LastDigitsLength(sequence, 6);
    DigitsRead(now, 20);
    DigitsRead(sequence, 6);
    var id := EventId(now, sequence);
    assert id == front + "-" + back && id[..20] == front && id[21..] == back;
  }

  // ---------- A reader alongside a publisher ----------

  /** The id of the last message a reader got, the start marker before the first. */
  function LastId(received: seq<Message>): string {
    if received == [] then "-" else received[|received| - 1].id
  }

  /** Everything a reader receives that polls when these numbers of messages have been published,
      always from the id of the last message it got. */
  function Received(log: seq<Message>, polls: seq<nat>): seq<Message>
    requires forall i | 0 <= i < |polls| :: polls[i] <= |log|
  {
    if polls == [] then []
    else
      var before := Received(log, polls[..|polls| - 1]);
      before + Replay(Newest(log[..polls[|polls| - 1]]), LastId(before))
  }

  /** No poll comes more than a thousand messages after the one before. */
  ghost predicate KeepsUp(polls: seq<nat>) {
    forall i | 0 <= i < |polls| :: InReach(polls, i)
  }

  predicate InReach(polls: seq<nat>, i: nat)
    requires i < |polls|
  {
    if i == 0 then polls[0] <= CAPACITY else polls[i - 1] <= polls[i] <= polls[i - 1] + CAPACITY
  }

  lemma PrefixIncreases(log: seq<Message>, n: nat)
    requires IdsIncrease(log) && n <= |log|
    ensures IdsIncrease(log[..n])
  {
  }

  lemma PollStep(log: seq<Message>, read: nat, upTo: nat)
    requires IdsIncrease(log) && read <= upTo <= |log| && upTo - read <= CAPACITY
    ensures log[..read] + Replay(Newest(log[..upTo]), LastId(log[..read])) == log[..upTo]
  {
    var seen := log[..upTo];
    PrefixIncreases(log, upTo);
    assert Cursor(seen, read) == LastId(log[..read]);
    PollReturnsUnread(seen, read);
    assert seen == log[..read] + seen[read..];
  }

  lemma EarlierPolls(polls: seq<nat>)
    requires polls != [] && KeepsUp(polls)
    ensures KeepsUp(polls[..|polls| - 1]) && InReach(polls, |polls| - 1)
  {
    var earlier := polls[..|polls| - 1];
    forall i | 0 <= i < |earlier| ensures InReach(earlier, i) {
      assert InReach(polls, i);
    }
  }

  /** A reader that is never more than a thousand messages behind receives every message once and
      in order, up to its last poll. */
  lemma {:induction false} ReaderSeesEverything(log: seq<Message>, polls: seq<nat>)
    requires IdsIncrease(log) && KeepsUp(polls)
    requires forall i | 0 <= i < |polls| :: polls[i] <= |log|
    ensures Received(log, polls) == log[..if polls == [] then 0 else polls[|polls| - 1]]
  {
    if polls != [] {
      var n := |polls| - 1;
      var earlier := polls[..n];
      EarlierPolls(polls);
      ReaderSeesEverything(log, earlier);
      var read := if n == 0 then 0 else polls[n - 1];
      assert read <= polls[n] <= read + CAPACITY;
      PollStep(log, read, polls[n]);
    }
  }

  // ---------- The bus ----------

  datatype History = History(times: seq<nat>, events: seq<Payload>)

  function Extended(h: History, now: nat, event: Payload): History {
    History(h.times + [now], h.events + [event])
  }

  function HistoryOf(published: map<StreamId, History>, stream: StreamId): History {
    if stream in published then published[stream] else History([], [])
  }

  class AssistantStreamBus {
    var events: map<StreamId, seq<Message>>
    var sequence: map<StreamId, nat>
    ghost var published: map<StreamId, History>   // the clock readings and payloads of every publish

    /** Each stream's buffer is the newest part of all that was ever published on it. */
    ghost predicate Valid()
      reads this
    {
      && events.Keys == sequence.Keys == published.Keys
      && forall s | s in events :: IsBuffer(events[s], sequence[s], published[s])
    }

    constructor ()
      ensures Valid() && events == map[]
    {
      events, sequence, published := map[], map[], map[];
    }

    method Publish(stream: StreamId, event: Payload, now: nat) returns (id: string)
      requires Valid()
      modifies this
      ensures Valid()
      ensures published == old(published)[stream := Extended(HistoryOf(old(published), stream), now, event)]
      ensures id == EventId(now, |published[stream].times|)
    {
      var number := if stream in sequence then sequence[stream] else 0;
      var buffer := if stream in events then events[stream] else [];
      ghost var h := HistoryOf(published, stream);
      assert IsBuffer(buffer, number, h);
      AppendNewest(buffer, number, h, now, event);
      number := number + 1;
      sequence := sequence[stream := number];
      id := EventId(now, number);
      buffer := buffer + [Message(id, event)];
      if |buffer| > CAPACITY { buffer := buffer[|buffer| - CAPACITY..]; }
      events := events[stream := buffer];
      published := published[stream := Extended(h, now, event)];
    }

    /** `replay` and, after its sleep, `wait_for_events`. */
    method ReplayFrom(stream: StreamId, after: string) returns (messages: seq<Message>)
      requires Valid()
      ensures messages == if stream in events then Replay(events[stream], after) else []
    {
      messages := [];
      if stream in events {
        var buffer := events[stream];
        for i := 0 to |buffer|
          invariant messages == Replay(buffer[..i], after)
        {
          assert buffer[..i + 1][..i] == buffer[..i];
          if Passes(after, buffer[i].id) { messages := messages + [buffer[i]]; }
        }
        assert buffer[..|buffer|] == buffer;
      }
    }
  }

  ghost predicate IsBuffer(buffer: seq<Message>, number: nat, h: History) {
    |h.times| == |h.events| == number && buffer == Newest(FullLog(h.times, h.events))
  }

  lemma NewestOfNewest(log: seq<Message>, last: Message)
    ensures Newest(Newest(log) + [last]) == Newest(log + [last])
  {
  }

  /** Appending to the trimmed buffer and trimming again keeps the newest part of the full log. */
  lemma AppendNewest(buffer: seq<Message>, number: nat, h: History, now: nat, event: Payload)
    requires IsBuffer(buffer, number, h)
    ensures IsBuffer(Newest(buffer + [Message(EventId(now, number + 1), event)]), number + 1, Extended(h, now, event))
  {
    var log, last := FullLog(h.times, h.events), Message(EventId(now, number + 1), event);
    assert FullLog(h.times + [now], h.events + [event]) == log + [last];
    NewestOfNewest(log, last);
  }
}
