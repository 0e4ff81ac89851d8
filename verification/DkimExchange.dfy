/** The DKIM check's two processes: the cryptographic worker (backend/investigation/dkim_task.py) and the
    parent that answers its DNS requests (backend/investigation/dkim_api.py, BoundedDNS and exchange). */
module DkimExchange {
  import opened Common

  const MAX_SIGNATURES: nat := 5
  const MAX_DNS_BYTES: nat := 4096
  const MAX_LINE: nat := 8192

  datatype Reason =
    | NoSignature | SignatureLimit | SignatureVerified | MalformedSignature | SignatureNotVerified
    | InvalidDnsName | DnsQueryLimit | DnsTimeout | DnsNoKey | DnsResponseLimit | DnsUnavailable
    | DnsAmbiguousOrMissingKey | VerificationUnavailable | VerificationResourceLimit

  datatype Verification = Valid | Invalid | Unsigned | Unavailable

  datatype Verdict = Verdict(verification: Verification, reason: Reason)

  datatype Judgement = Verified | NotVerified | Malformed

  /** What checking one signature comes to: decided without DNS, or after one request for a key. */
  datatype Signature = Local(judgement: Judgement) | Lookup(name: string, judge: Bytes -> Judgement)

  datatype Reply = Txt(value: Bytes) | Error(reason: Reason)

  datatype Message = Request(name: string) | Result(verdict: Verdict)

  /** The resolver's answer to its n-th call. */
  datatype Answer = Found(value: Bytes) | TimedOut | Refused(reason: Reason)

  type Resolver = (nat, string) -> Answer

  /* ---- Names and lines ---- */

  function Lower(c: char): char {
    if 'A' <= c <= 'Z' then c - 'A' + 'a' else c
  }

  /** name.rstrip(".").lower() */
  function Normalized(name: string): string {
    if name != "" && name[|name| - 1] == '.' then Normalized(name[..|name| - 1])
    else seq(|name|, i requires 0 <= i < |name| => Lower(name[i]))
  }

  predicate LabelCharacter(c: char) {
    'a' <= c <= 'z' || '0' <= c <= '9' || c == '_' || c == '-'
  }

  /** Dot-separated labels of 1 to 63 allowed characters; `run` characters of the current one are read. */
  predicate Labels(name: string, run: nat) {
    if name == "" then 1 <= run <= 63
    else if name[0] == '.' then 1 <= run <= 63 && Labels(name[1..], 0)
    else LabelCharacter(name[0]) && Labels(name[1..], run + 1)
  }

  /** Offset after the first "._domainkey.", if there is one. */
  function DomainStart(name: string, from: nat): (r: Option<nat>)
    requires from <= |name|
    ensures r.Some? ==> from + 12 <= r.value <= |name| && name[r.value - 12..r.value] == "._domainkey."
    decreases |name| - from
  {
    if from + 12 > |name| then None
    else if name[from..from + 12] == "._domainkey." then Some(from + 12)
    else DomainStart(name, from + 1)
  }

  predicate ValidName(name: string) {
    |name| <= 253 && DomainStart(name, 0).Some? && Labels(name, 0)
  }

  /** Characters json.dumps writes for one ASCII character. */
  function JsonWidth(c: char): nat {
    if c == '"' || c == '\\' || c == '\n' || c == '\r' || c == '\t' || c == 8 as char || c == 12 as char then 2
    else if c < ' ' || c > '~' then 6
    else 1
  }

  function JsonLength(text: string): nat {
    if text == "" then 0 else JsonWidth(text[0]) + JsonLength(text[1..])
  }

  /** The line {"dns": "<name>"} and its newline. */
  function RequestLine(name: string): nat {
    JsonLength(name) + 12
  }

  /** The line {"txt": "<base64>"} or {"error": "<code>"}; codes are shorter than 64 characters. */
  function ReplyLine(reply: Reply): nat {
    match reply
    case Txt(value) => (|value| + 2) / 3 * 4 + 12
    case Error(_) => 64 + 14
  }

  /* ---- The parent's resolver ---- */

  datatype Dns = Dns(queries: seq<string>, domains: seq<string>, cache: map<string, Bytes>)

  const NO_QUERIES := Dns([], [], map[])

  function Answered(dns: Dns, name: string, answer: Answer): (Dns, Reply) {
    match answer
    case TimedOut => (dns, Error(DnsTimeout))
    case Refused(reason) => (dns, Error(reason))
    case Found(value) =>
      if value == [] then (dns, Error(DnsNoKey))
      else if |value| > MAX_DNS_BYTES then (dns, Error(DnsResponseLimit))
      else (dns.(cache := dns.cache[name := value]), Txt(value))
  }

  function AskStep(dns: Dns, resolver: Resolver, raw: string): (Dns, Reply) {
    var name := Normalized(raw);
    if !ValidName(name) then (dns, Error(InvalidDnsName))
    else if name in dns.cache then (dns, Txt(dns.cache[name]))
    else if |dns.queries| >= MAX_SIGNATURES then (dns, Error(DnsQueryLimit))
    else
      var asked := dns.(queries := dns.queries + [name], domains := dns.domains + [name[DomainStart(name, 0).value..]]);
      Answered(asked, name, resolver(|dns.queries|, name))
  }

  class BoundedDns {
    var queries: seq<string>
    var domains: seq<string>
    var cache: map<string, Bytes>

    ghost function State(): Dns
      reads this
    {
      Dns(queries, domains, cache)
    }

    constructor ()
      ensures State() == NO_QUERIES
    {
      queries, domains, cache := [], [], map[];
    }

    method Ask(resolver: Resolver, raw: string) returns (r: Reply)
      modifies this
      ensures (State(), r) == AskStep(old(State()), resolver, raw)
    {
      var name := Normalized(raw);
      if !ValidName(name) {
        return Error(InvalidDnsName);
      }
      if name in cache {
        return Txt(cache[name]);
      }
      if |queries| >= MAX_SIGNATURES {
        return Error(DnsQueryLimit);
      }
      var answer := resolver(|queries|, name);
      queries := queries + [name];
      domains := domains + [name[DomainStart(name, 0).value..]];
      r := Receive(name, answer);
    }

    /** What becomes of the resolver's answer. */
    method Receive(name: string, answer: Answer) returns (r: Reply)
      modifies this`cache
      ensures (State(), r) == Answered(old(State()), name, answer)
    {
      match answer
      case TimedOut => return Error(DnsTimeout);
      case Refused(reason) => return Error(reason);
      case Found(value) =>
        if value == [] {
          return Error(DnsNoKey);
        }
        if |value| > MAX_DNS_BYTES {
          return Error(DnsResponseLimit);
        }
        cache := cache[name := value];
        return Txt(value);
    }
  }

  /* ---- The worker ---- */

  datatype Tally = Tally(valid: bool, unavailable: Option<Reason>, malformed: bool)

  const NO_TALLY := Tally(false, None, false)

  datatype Finding = Judged(judgement: Judgement) | NoAnswer(reason: Reason)

  function Note(t: Tally, o: Finding): Tally {
    match o
    case Judged(Verified) => t.(valid := true)
    case Judged(NotVerified) => t
    case Judged(Malformed) => t.(malformed := true)
    case NoAnswer(reason) => t.(unavailable := Some(reason))
  }

  function Conclude(t: Tally): Verdict {
    if t.valid then Verdict(Valid, SignatureVerified)
    else if t.unavailable.Some? then Verdict(Unavailable, t.unavailable.value)
    else Verdict(Invalid, if t.malformed then MalformedSignature else SignatureNotVerified)
  }

  /** The worker refuses a reply line that is too long for it to read. */
  function Received(judge: Bytes -> Judgement, reply: Reply): Finding {
    if ReplyLine(reply) > MAX_LINE then NoAnswer(VerificationUnavailable)
    else match reply
      case Txt(value) => Judged(judge(value))
      case Error(reason) => NoAnswer(reason)
  }

  /** Runs on, past signatures that need no DNS, to the next one that does, or to the end. */
  function Advance(sigs: seq<Signature>, i: nat, t: Tally): (r: (nat, Tally))
    requires i <= |sigs|
    ensures i <= r.0 <= |sigs| && (r.0 < |sigs| ==> sigs[r.0].Lookup?)
    decreases |sigs| - i
  {
    if i == |sigs| || sigs[i].Lookup? then (i, t) else Advance(sigs, i + 1, Note(t, Judged(sigs[i].judgement)))
  }

  /** verify() of the worker, cut at its only blocking point: waiting for a DNS reply. */
  class Worker {
    const signatures: seq<Signature>
    var index: nat
    var valid: bool
    var unavailable: Option<Reason>
    var malformed: bool
    var waiting: bool

    ghost function Tallied(): Tally
      reads this
    {
      Tally(valid, unavailable, malformed)
    }

    ghost predicate Inside()
      reads this
    {
      1 <= |signatures| <= MAX_SIGNATURES && index <= |signatures| && (waiting ==> index < |signatures| && signatures[index].Lookup?)
    }

    constructor (signatures: seq<Signature>)
      ensures this.signatures == signatures && index == 0 && Tallied() == NO_TALLY && !waiting
    {
      this.signatures := signatures;
      index, valid, unavailable, malformed, waiting := 0, false, None, false, false;
    }

    /** From the start to the first message. */
    method Start() returns (m: Message)
      requires index == 0 && Tallied() == NO_TALLY && !waiting
      modifies this
      ensures index <= |signatures| && (signatures == [] || |signatures| > MAX_SIGNATURES ==> m.Result?)
      ensures signatures == [] ==> m == Result(Verdict(Unsigned, NoSignature))
      ensures |signatures| > MAX_SIGNATURES ==> m == Result(Verdict(Unavailable, SignatureLimit))
      ensures 1 <= |signatures| <= MAX_SIGNATURES ==>
        && Inside() && (index, Tallied()) == Advance(signatures, 0, NO_TALLY)
        && m == if waiting then Request(signatures[index].name) else Result(Conclude(Tallied()))
      ensures 1 <= |signatures| <= MAX_SIGNATURES ==> (waiting <==> index < |signatures|)
    {
      if signatures == [] {
        return Result(Verdict(Unsigned, NoSignature));
      }
      if |signatures| > MAX_SIGNATURES {
        return Result(Verdict(Unavailable, SignatureLimit));
      }
      m := Continue();
    }

    /** From one reply to the next message. */
    method Resume(reply: Reply) returns (m: Message)
      requires Inside() && waiting
      modifies this
      ensures Inside()
      ensures (index, Tallied()) == Advance(signatures, old(index) + 1,
        Note(old(Tallied()), Received(signatures[old(index)].judge, reply)))
      ensures waiting <==> index < |signatures|
      ensures m == if waiting then Request(signatures[index].name) else Result(Conclude(Tallied()))
    {
      if ReplyLine(reply) > MAX_LINE {
        unavailable := Some(VerificationUnavailable);
      } else {
        match reply
        case Error(reason) => unavailable := Some(reason);
        case Txt(value) =>
          match signatures[index].judge(value)
          case Verified => valid := true;
          case NotVerified =>
          case Malformed => malformed := true;
      }
      index := index + 1;
      waiting := false;
      m := Continue();
    }

    /** The loop of verify, up to the next DNS request or the verdict. */
    method Continue() returns (m: Message)
      requires Inside() && !waiting
      modifies this
      ensures Inside() && (index, Tallied()) == Advance(signatures, old(index), old(Tallied()))
      ensures waiting <==> index < |signatures|
      ensures m == if waiting then Request(signatures[index].name) else Result(Conclude(Tallied()))
    {
      while index < |signatures| && signatures[index].Local?
        invariant Inside() && !waiting
        invariant Advance(signatures, index, Tallied()) == Advance(signatures, old(index), old(Tallied()))
        decreases |signatures| - index
      {
        match signatures[index].judgement {
          case Verified => valid := true;
          case NotVerified =>
          case Malformed => malformed := true;
        }
        index := index + 1;
      }
      waiting := index < |signatures|;
      m := if waiting then Request(signatures[index].name)
           else if valid then Result(Verdict(Valid, SignatureVerified))
           else if unavailable.Some? then Result(Verdict(Unavailable, unavailable.value))
           else Result(Verdict(Invalid, if malformed then MalformedSignature else SignatureNotVerified));
    }
  }

  /* ---- The conversation ---- */

  /** asyncio's reader refuses a line whose text exceeds its limit; the parent itself refuses one that
      reaches the limit only with its newline. */
  function Oversized(name: string): Option<Reason> {
    if RequestLine(name) - 1 > MAX_LINE then Some(VerificationUnavailable)
    else if RequestLine(name) > MAX_LINE then Some(VerificationResourceLimit)
    else None
  }

  /** What the parent does with a line: refuse it, or ask its resolver on the worker's behalf. */
  datatype Parent = Parent(oversized: string -> Option<Reason>, ask: (Dns, string) -> (Dns, Reply))

  function Bounded(resolver: Resolver): Parent {
    Parent(Oversized, (dns: Dns, name: string) => AskStep(dns, resolver, name))
  }

  /** What the parent returns when it still accepts `budget` messages. */
  function Converse(budget: nat, sigs: seq<Signature>, i: nat, t: Tally, dns: Dns, parent: Parent): (Verdict, Dns)
    requires i <= |sigs|
    decreases budget
  {
    if budget == 0 then (Verdict(Unavailable, VerificationResourceLimit), dns)
    else
      var (j, u) := Advance(sigs, i, t);
      if j == |sigs| then (Conclude(u), dns)
      else if parent.oversized(sigs[j].name).Some? then
        (Verdict(Unavailable, parent.oversized(sigs[j].name).value), dns)
      else
        var (asked, reply) := parent.ask(dns, sigs[j].name);
        Converse(budget - 1, sigs, j + 1, Note(u, Received(sigs[j].judge, reply)), asked, parent)
  }

  /** The parent's result and its DNS record, for any message and any resolver. */
  function Checked(sigs: seq<Signature>, resolver: Resolver): (Verdict, Dns) {
    if sigs == [] then (Verdict(Unsigned, NoSignature), NO_QUERIES)
    else if |sigs| > MAX_SIGNATURES then (Verdict(Unavailable, SignatureLimit), NO_QUERIES)
    else Converse(MAX_SIGNATURES + 1, sigs, 0, NO_TALLY, NO_QUERIES, Bounded(resolver))
  }

  /** exchange, with the worker at the other end of the pipe. */
  method Exchange(sigs: seq<Signature>, resolver: Resolver) returns (verdict: Verdict, queries: seq<string>, domains: seq<string>)
    ensures verdict == Checked(sigs, resolver).0
    ensures queries == Checked(sigs, resolver).1.queries && domains == Checked(sigs, resolver).1.domains
  {
    var dns := new BoundedDns();
    var worker := new Worker(sigs);
    var message := worker.Start();
    verdict := Serve(MAX_SIGNATURES + 1, message, worker, dns, resolver);
    queries, domains := dns.queries, dns.domains;
  }

  /** What remains of the exchange once `message` is the next line on the pipe. */
  function Remaining(budget: nat, message: Message, sigs: seq<Signature>, i: nat, t: Tally, dns: Dns, parent: Parent)
    : (Verdict, Dns)
    requires i <= |sigs|
  {
    if message.Request? then Converse(budget, sigs, i, t, dns, parent)
    else if budget == 0 then (Verdict(Unavailable, VerificationResourceLimit), dns)
    else (message.verdict, dns)
  }

  /** The parent's loop, for at most `budget` lines. */
  method Serve(budget: nat, first: Message, worker: Worker, dns: BoundedDns, resolver: Resolver) returns (verdict: Verdict)
    requires worker.index <= |worker.signatures| && (first.Request? ==> Pending(worker, first))
    modifies worker, dns
    ensures (verdict, dns.State()) ==
      old(Remaining(budget, first, worker.signatures, worker.index, worker.Tallied(), dns.State(), Bounded(resolver)))
  {
    var message := first;
    ghost var goal := Remaining(budget, first, worker.signatures, worker.index, worker.Tallied(), dns.State(), Bounded(resolver));
    for k := 0 to budget
      invariant worker.index <= |worker.signatures| && (message.Request? ==> Pending(worker, message))
      invariant goal ==
        Remaining(budget - k, message, worker.signatures, worker.index, worker.Tallied(), dns.State(), Bounded(resolver))
    {
      if message.Result? {
        return message.verdict;
      }
      if Oversized(message.name).Some? {
        return Verdict(Unavailable, Oversized(message.name).value);
      }
      ghost var i, t, d := worker.index, worker.Tallied(), dns.State();
      var reply := dns.Ask(resolver, message.name);
      message := worker.Resume(reply);
      RequestAnswered(budget - k, worker.signatures, i, t, d, Bounded(resolver), dns.State(), reply, worker.index, worker.Tallied(), message);
    }
    verdict := Verdict(Unavailable, VerificationResourceLimit);
  }

  /** One request and its reply take the conversation to the worker's next message. */
  lemma RequestAnswered(budget: nat, sigs: seq<Signature>, i: nat, t: Tally, dns: Dns, parent: Parent,
                        asked: Dns, reply: Reply, j: nat, u: Tally, next: Message)
    requires budget > 0 && i < |sigs| && sigs[i].Lookup? && parent.oversized(sigs[i].name).None?
    requires (asked, reply) == parent.ask(dns, sigs[i].name)
    requires (j, u) == Advance(sigs, i + 1, Note(t, Received(sigs[i].judge, reply))) && j <= |sigs|
    requires next == if j < |sigs| then Request(sigs[j].name) else Result(Conclude(u))
    ensures Converse(budget, sigs, i, t, dns, parent) == Remaining(budget - 1, next, sigs, j, u, asked, parent)
  {
    var n := Note(t, Received(sigs[i].judge, reply));
    assert Converse(budget, sigs, i, t, dns, parent) == Converse(budget - 1, sigs, i + 1, n, asked, parent);
    AdvancedConversation(budget - 1, sigs, i + 1, n, asked, parent);
  }

  /** The worker runs on to its next message before the parent hears anything. */
  lemma AdvancedConversation(budget: nat, sigs: seq<Signature>, i: nat, t: Tally, dns: Dns, parent: Parent)
    requires i <= |sigs|
    ensures var (j, u) := Advance(sigs, i, t);
      Converse(budget, sigs, i, t, dns, parent) ==
        Remaining(budget, if j < |sigs| then Request(sigs[j].name) else Result(Conclude(u)), sigs, j, u, dns, parent)
  {
    var (j, u) := Advance(sigs, i, t);
    assert Advance(sigs, j, u) == (j, u);
  }

  ghost predicate Pending(worker: Worker, message: Message)
    reads worker
  {
    && worker.Inside() && worker.waiting && worker.index < |worker.signatures|
    && worker.signatures[worker.index].Lookup?
    && message == Request(worker.signatures[worker.index].name)
  }
}
