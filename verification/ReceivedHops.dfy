/** Delays between the Received headers of a mail (backend/factories/eml.py). */
module ReceivedHops {
  import opened Common

  /** The date of a hop: missing, a text, or a moment in seconds. */
  datatype Date = Missing | Text(text: string) | At(time: real)

  /** A hop as parsed; `tail` is the trimmed text after the last semicolon of the header. */
  datatype Hop = Hop(tail: string, date: Date)

  datatype Timed = Timed(tail: string, date: Date, delay: Option<int>)

  /** parse_datetime: text the date parser does not understand stays text. */
  function Parse(parse: string -> Option<real>, date: Date): Date {
    match date
    case Text(s) => (match parse(s) case Some(t) => At(t) case None => date)
    case _ => date
  }

  predicate Given(date: Date) {
    date.At? || (date.Text? && date.text != "")
  }

  /** The header's own date, or the text after its last semicolon. */
  function Normalized(parse: string -> Option<real>, hop: Hop): Date {
    Parse(parse, if Given(hop.date) then hop.date else Text(hop.tail))
  }

  /** int(): the part before the decimal point, towards zero for either sign. */
  function Truncated(x: real): int {
    if x >= 0.0 then x.Floor else -((-x).Floor)
  }

  /** The date a hop ends up with: the moment it has or that its text spells; without a date of its own, what the text
      after the last semicolon spells, or that text itself. */
  lemma HopDates(parse: string -> Option<real>, hop: Hop)
    ensures var text := match hop.date case Text(s) => (if s == "" then hop.tail else s) case _ => hop.tail;
      Normalized(parse, hop) ==
        match hop.date
        case At(t) => At(t)
        case _ => (match parse(text) case Some(t) => At(t) case None => Text(text))
  {
  }

  /* ---- What the delays are ---- */

  /** The dated hop last before position k. */
  function Previous(dates: seq<Date>, k: nat): (j: nat)
    requires k <= |dates| && exists i :: 0 <= i < k && dates[i].At?
    ensures j < k && dates[j].At?
    ensures forall i | j < i < k :: !dates[i].At?
  {
    if dates[k - 1].At? then k - 1 else Previous(dates, k - 1)
  }

  /** The delay the hop at position k should carry: none without a date of its own or of the oldest hop, 0 for
      the oldest hop, else the time since the dated hop before it. */
  function DelayAt(dates: seq<Date>, k: nat): Option<int>
    requires k < |dates|
  {
    if !dates[0].At? || !dates[k].At? then None
    else if k == 0 then Some(0)
    else Some(Truncated(dates[k].time - dates[Previous(dates, k)].time))
  }

  function DatesOf(hops: seq<Timed>): seq<Date> {
    seq(|hops|, i requires 0 <= i < |hops| => hops[i].date)
  }

  /** Parsing a second time changes nothing. */
  lemma ParseTwice(parse: string -> Option<real>, hop: Hop)
    ensures Parse(parse, Normalized(parse, hop)) == Normalized(parse, hop)
  {
  }

  /** The hops with their dates parsed, oldest first. */
  method ParseDates(parse: string -> Option<real>, received: seq<Hop>) returns (hops: seq<Timed>)
    ensures |hops| == |received|
    ensures forall k | 0 <= k < |hops| ::
      hops[k] == Timed(received[|received| - 1 - k].tail, Normalized(parse, received[|received| - 1 - k]), None)
  {
    hops := [];
    for i := 0 to |received|
      invariant |hops| == i
      invariant forall k | 0 <= k < i ::
        hops[k] == Timed(received[i - 1 - k].tail, Normalized(parse, received[i - 1 - k]), None)
    {
      hops := [Timed(received[i].tail, Normalized(parse, received[i]), None)] + hops;
    }
  }

  /** The moment the loop measures from at position i. */
  function Base(dates: seq<Date>, i: nat): Date
    requires i <= |dates| && dates != []
  {
    if i == 0 || !dates[0].At? then dates[0] else dates[Previous(dates, i)]
  }

  /** The delay between two moments, when both are known. */
  function Elapsed(base: Date, date: Date): Option<int> {
    if base.At? && date.At? then Some(Truncated(date.time - base.time)) else None
  }

  lemma BaseMoves(dates: seq<Date>, i: nat)
    requires i < |dates|
    ensures DelayAt(dates, i) == Elapsed(Base(dates, i), dates[i])
    ensures Base(dates, i + 1) == if Elapsed(Base(dates, i), dates[i]).Some? then dates[i] else Base(dates, i)
  {
  }

  function WithDelay(hops: seq<Timed>, k: nat): Timed
    requires k < |hops|
  {
    hops[k].(delay := DelayAt(DatesOf(hops), k))
  }

  /** A date is parsed once more where it is used; one that is not given counts as none. */
  function Reparsed(parse: string -> Option<real>, date: Date): Date {
    if Given(date) then Parse(parse, date) else Missing
  }

  lemma ReparsedIsSettled(parse: string -> Option<real>, hop: Hop)
    ensures Settled(parse, Normalized(parse, hop))
  {
    ParseTwice(parse, hop);
  }

  /** Using the date means using its moment, if it has one. */
  predicate Settled(parse: string -> Option<real>, date: Date) {
    if date.At? then Reparsed(parse, date) == date else !Reparsed(parse, date).At?
  }

  /** One pass with the date of the last dated hop in hand. */
  method SetDelays(parse: string -> Option<real>, start: seq<Timed>) returns (hops: seq<Timed>)
    requires forall k | 0 <= k < |start| :: start[k].delay == None && Settled(parse, start[k].date)
    ensures |hops| == |start|
    ensures forall k | 0 <= k < |hops| :: hops[k] == WithDelay(start, k)
  {
    hops := start;
    if start == [] {
      return;
    }
    var base := Reparsed(parse, start[0].date);
    for i := 0 to |start|
      invariant |hops| == |start|
      invariant if Base(DatesOf(start), i).At? then base == Base(DatesOf(start), i) else !base.At?
      invariant forall k | 0 <= k < i :: hops[k] == WithDelay(start, k)
      invariant forall k | i <= k < |start| :: hops[k] == start[k]
    {
      BaseMoves(DatesOf(start), i);
      var date := Reparsed(parse, hops[i].date);
      var delay := Elapsed(base, date);
      if delay.Some? {
        hops := hops[i := hops[i].(delay := delay)];
        base := date;
      }
    }
  }

  /** _normalize_received: the hops from the oldest on, each with its parsed date and its delay. */
  method NormalizeReceived(parse: string -> Option<real>, received: seq<Hop>) returns (hops: seq<Timed>)
    ensures |hops| == |received|
    ensures forall k | 0 <= k < |hops| ::
      var hop := received[|received| - 1 - k];
      hops[k] == Timed(hop.tail, Normalized(parse, hop), DelayAt(DatesOf(hops), k))
  {
    var parsed := ParseDates(parse, received);
    forall k | 0 <= k < |parsed| ensures Settled(parse, parsed[k].date) {
      ReparsedIsSettled(parse, received[|received| - 1 - k]);
    }
    hops := SetDelays(parse, parsed);
    assert DatesOf(hops) == DatesOf(parsed);
  }

  /* ---- The delays add up ---- */

  /** The sum of the delays of the hops before position n. */
  function Total(dates: seq<Date>, n: nat): int
    requires n <= |dates|
  {
    if n == 0 then 0
    else Total(dates, n - 1) + match DelayAt(dates, n - 1) case Some(d) => d case None => 0
  }

  function CountDated(dates: seq<Date>, n: nat): nat
    requires n <= |dates|
  {
    if n == 0 then 0 else CountDated(dates, n - 1) + if dates[n - 1].At? then 1 else 0
  }

  predicate Whole(x: real) {
    x.Floor as real == x
  }

  lemma TruncationError(x: real)
    ensures -1.0 < Truncated(x) as real - x < 1.0
    ensures Whole(x) ==> Truncated(x) as real == x
  {
  }

  lemma WholeDifference(x: real, y: real)
    requires Whole(x) && Whole(y)
    ensures Whole(x - y)
  {
    assert x - y == (x.Floor - y.Floor) as real;
  }

  /** The delays of the first n hops sum to the time between the oldest and the last dated hop among them: exactly
      when all moments are whole seconds, else to within one second per delay after the first. */
  lemma {:induction false} DelaysAddUp(dates: seq<Date>, n: nat)
    requires 0 < n <= |dates| && dates[0].At?
    ensures CountDated(dates, n) >= 1
    ensures var span := dates[Previous(dates, n)].time - dates[0].time;
      && -((CountDated(dates, n) - 1) as real) <= Total(dates, n) as real - span <= (CountDated(dates, n) - 1) as real
      && ((forall i | 0 <= i < n && dates[i].At? :: Whole(dates[i].time)) ==> Total(dates, n) as real == span)
  {
    if n == 1 {
      assert Total(dates, 0) == 0 && CountDated(dates, 0) == 0;
    } else {
      DelaysAddUp(dates, n - 1);
      var k := n - 1;
      if dates[k].At? {
        var step := dates[k].time - dates[Previous(dates, k)].time;
        TruncationError(step);
        assert Total(dates, n) == Total(dates, k) + Truncated(step);
        if forall i | 0 <= i < n && dates[i].At? :: Whole(dates[i].time) {
          WholeDifference(dates[k].time, dates[Previous(dates, k)].time);
        }
      }
    }
  }

  /** Clocks that run backwards give negative delays, and a gap below a second in either direction gives 0. */
  lemma DelaySign(dates: seq<Date>, k: nat)
    requires 0 < k < |dates| && dates[0].At? && dates[k].At?
    ensures var gap := dates[k].time - dates[Previous(dates, k)].time;
      && (DelayAt(dates, k).value > 0 <==> gap >= 1.0)
      && (DelayAt(dates, k).value < 0 <==> gap <= -1.0)
  {
  }

  /** A delay is the gap to the dated hop before, cut to whole seconds towards zero. */
  lemma DelayIsWholeSeconds(dates: seq<Date>, k: nat, j: nat)
    requires j < k < |dates| && dates[0].At? && dates[j].At? && dates[k].At? && forall i | j < i < k :: !dates[i].At?
    ensures var gap := dates[k].time - dates[j].time;
      DelayAt(dates, k).Some? && var d := DelayAt(dates, k).value as real;
      if gap >= 0.0 then d <= gap < d + 1.0 else d - 1.0 < gap <= d
  {
    assert Previous(dates, k) == j;
  }

  /** Delays appear exactly on dated hops, and on none at all when the oldest hop has no date. */
  lemma DelaysPresentIff(dates: seq<Date>, k: nat)
    requires k < |dates|
    ensures DelayAt(dates, k).Some? <==> dates[0].At? && dates[k].At?
    ensures !dates[0].At? ==> Total(dates, k) == 0
  {
    if !dates[0].At? {
      NothingToAdd(dates, k);
    }
  }

  lemma {:induction false} NothingToAdd(dates: seq<Date>, n: nat)
    requires n <= |dates| && (|dates| > 0 ==> !dates[0].At?)
    ensures Total(dates, n) == 0
  {
    if n > 0 {
      NothingToAdd(dates, n - 1);
    }
  }
}
