/** What the DKIM check as a whole delivers, whatever the message and whatever the resolver answers. */
module DkimTheorems {
  import opened Common
  import opened DkimExchange

  /** The outcome of one answered request, leaving the pipe out of account. */
  function Direct(judge: Bytes -> Judgement, reply: Reply): Finding {
    match reply
    case Txt(value) => Judged(judge(value))
    case Error(reason) => NoAnswer(reason)
  }

  /** The findings on signatures i and after, in order, as if worker and resolver were one program. */
  function Findings(sigs: seq<Signature>, i: nat, dns: Dns, parent: Parent): seq<Finding>
    requires i <= |sigs|
    decreases |sigs| - i
  {
    if i == |sigs| then []
    else match sigs[i]
      case Local(j) => [Judged(j)] + Findings(sigs, i + 1, dns, parent)
      case Lookup(name, judge) =>
        var (asked, reply) := parent.ask(dns, name);
        [Direct(judge, reply)] + Findings(sigs, i + 1, asked, parent)
  }

  function DnsAfter(sigs: seq<Signature>, i: nat, dns: Dns, parent: Parent): Dns
    requires i <= |sigs|
    decreases |sigs| - i
  {
    if i == |sigs| then dns
    else match sigs[i]
      case Local(_) => DnsAfter(sigs, i + 1, dns, parent)
      case Lookup(name, _) => DnsAfter(sigs, i + 1, parent.ask(dns, name).0, parent)
  }

  function Absorb(t: Tally, outs: seq<Finding>): Tally
    decreases outs
  {
    if outs == [] then t else Absorb(Note(t, outs[0]), outs[1..])
  }

  lemma AbsorbFirst(t: Tally, first: Finding, rest: seq<Finding>)
    ensures Absorb(t, [first] + rest) == Absorb(Note(t, first), rest)
  {
    assert ([first] + rest)[1..] == rest;
  }

  /** Number of signatures from i on that ask for a key. */
  function Lookups(sigs: seq<Signature>, i: nat): nat
    requires i <= |sigs|
    decreases |sigs| - i
  {
    if i == |sigs| then 0 else (if sigs[i].Lookup? then 1 else 0) + Lookups(sigs, i + 1)
  }

  /** No request line from signature i on is too long for the parent. */
  predicate AllFit(sigs: seq<Signature>, i: nat, parent: Parent) {
    forall k | i <= k < |sigs| && sigs[k].Lookup? :: parent.oversized(sigs[k].name).None?
  }

  predicate CacheBounded(dns: Dns) {
    forall name | name in dns.cache :: 1 <= |dns.cache[name]| <= MAX_DNS_BYTES
  }

  /** The parent's replies are short enough for the worker to read. */
  ghost predicate Modest(parent: Parent) {
    forall dns, name | CacheBounded(dns) ::
      CacheBounded(parent.ask(dns, name).0) && ReplyLine(parent.ask(dns, name).1) <= MAX_LINE
  }

  /** Every reply line of the real parent fits, because its DNS answers are bounded. */
  lemma RepliesFit(resolver: Resolver)
    ensures Modest(Bounded(resolver))
  {
    forall dns, name | CacheBounded(dns) { AnswerFits(dns, resolver, name); }
  }

  lemma AnswerFits(dns: Dns, resolver: Resolver, name: string)
    requires CacheBounded(dns)
    ensures var (asked, reply) := AskStep(dns, resolver, name);
      CacheBounded(asked) && ReplyLine(reply) <= MAX_LINE
  {
  }

  /** A signature decided without DNS costs no message. */
  lemma LocalIsSilent(budget: nat, sigs: seq<Signature>, i: nat, t: Tally, dns: Dns, parent: Parent)
    requires i < |sigs| && sigs[i].Local? && budget > 0
    ensures Converse(budget, sigs, i, t, dns, parent)
      == Converse(budget, sigs, i + 1, Note(t, Judged(sigs[i].judgement)), dns, parent)
  {
    assert Advance(sigs, i, t) == Advance(sigs, i + 1, Note(t, Judged(sigs[i].judgement)));
  }

  lemma LookupIsOneMessage(budget: nat, sigs: seq<Signature>, i: nat, t: Tally, dns: Dns, parent: Parent)
    requires i < |sigs| && sigs[i].Lookup? && budget > 0
    ensures Advance(sigs, i, t) == (i, t)
    ensures parent.oversized(sigs[i].name).Some? ==>
      Converse(budget, sigs, i, t, dns, parent) == (Verdict(Unavailable, parent.oversized(sigs[i].name).value), dns)
    ensures parent.oversized(sigs[i].name).None? ==>
      var (asked, reply) := parent.ask(dns, sigs[i].name);
      Converse(budget, sigs, i, t, dns, parent)
        == Converse(budget - 1, sigs, i + 1, Note(t, Received(sigs[i].judge, reply)), asked, parent)
  {
  }

  /** A request that fits uses up one message, whatever its answer. */
  lemma LookupContinues(budget: nat, sigs: seq<Signature>, i: nat, t: Tally, dns: Dns, parent: Parent)
    returns (u: Tally, asked: Dns)
    requires i < |sigs| && sigs[i].Lookup? && budget > 0 && parent.oversized(sigs[i].name).None?
    ensures Converse(budget, sigs, i, t, dns, parent) == Converse(budget - 1, sigs, i + 1, u, asked, parent)
  {
    LookupIsOneMessage(budget, sigs, i, t, dns, parent);
    var (d, reply) := parent.ask(dns, sigs[i].name);
    u, asked := Note(t, Received(sigs[i].judge, reply)), d;
  }

  /** With one message more than there are requests, the worker's verdict always arrives. */
  lemma {:induction false} EnoughBudget(budget: nat, sigs: seq<Signature>, i: nat, t: Tally, dns: Dns, parent: Parent)
    requires i <= |sigs| && AllFit(sigs, i, parent) && CacheBounded(dns) && Modest(parent) && budget > Lookups(sigs, i)
    ensures Converse(budget, sigs, i, t, dns, parent)
      == (Conclude(Absorb(t, Findings(sigs, i, dns, parent))), DnsAfter(sigs, i, dns, parent))
    decreases |sigs| - i
  {
    if i < |sigs| {
      match sigs[i]
      case Local(j) =>
        LocalIsSilent(budget, sigs, i, t, dns, parent);
        EnoughBudget(budget, sigs, i + 1, Note(t, Judged(j)), dns, parent);
        AbsorbFirst(t, Judged(j), Findings(sigs, i + 1, dns, parent));
      case Lookup(name, judge) =>
        var (asked, reply) := parent.ask(dns, name);
        assert CacheBounded(asked) && ReplyLine(reply) <= MAX_LINE;
        LookupIsOneMessage(budget, sigs, i, t, dns, parent);
        EnoughBudget(budget - 1, sigs, i + 1, Note(t, Direct(judge, reply)), asked, parent);
        AbsorbFirst(t, Direct(judge, reply), Findings(sigs, i + 1, asked, parent));
    } else {
      assert Advance(sigs, i, t) == (i, t);
    }
  }

  /** With no more messages than requests, it never does: the budget is exactly enough. */
  lemma {:induction false} TooSmallBudget(budget: nat, sigs: seq<Signature>, i: nat, t: Tally, dns: Dns, parent: Parent)
    requires i <= |sigs| && AllFit(sigs, i, parent) && budget <= Lookups(sigs, i)
    ensures Converse(budget, sigs, i, t, dns, parent).0 == Verdict(Unavailable, VerificationResourceLimit)
    decreases |sigs| - i
  {
    if budget > 0 {
      match sigs[i]
      case Local(j) =>
        LocalIsSilent(budget, sigs, i, t, dns, parent);
        TooSmallBudget(budget, sigs, i + 1, Note(t, Judged(j)), dns, parent);
      case Lookup(name, judge) =>
        var u, asked := LookupContinues(budget, sigs, i, t, dns, parent);
        TooSmallBudget(budget - 1, sigs, i + 1, u, asked, parent);
    }
  }

  lemma {:induction false} LookupsBounded(sigs: seq<Signature>, i: nat)
    requires i <= |sigs|
    ensures Lookups(sigs, i) <= |sigs| - i
    decreases |sigs| - i
  {
    if i < |sigs| { LookupsBounded(sigs, i + 1); }
  }

  /** Unless some request line is too long, the exchange delivers exactly what worker and resolver would
      decide as one program, for one to five signatures and any resolver. */
  lemma VerdictAlwaysDelivered(sigs: seq<Signature>, resolver: Resolver)
    requires 1 <= |sigs| <= MAX_SIGNATURES && AllFit(sigs, 0, Bounded(resolver))
    ensures Checked(sigs, resolver)
      == (Conclude(Absorb(NO_TALLY, Findings(sigs, 0, NO_QUERIES, Bounded(resolver)))), DnsAfter(sigs, 0, NO_QUERIES, Bounded(resolver)))
  {
    LookupsBounded(sigs, 0);
    RepliesFit(resolver);
    EnoughBudget(MAX_SIGNATURES + 1, sigs, 0, NO_TALLY, NO_QUERIES, Bounded(resolver));
  }

  predicate CutOff(v: Verdict) {
    v == Verdict(Unavailable, VerificationUnavailable) || v == Verdict(Unavailable, VerificationResourceLimit)
  }

  lemma {:induction false} OversizedEnds(budget: nat, sigs: seq<Signature>, i: nat, k: nat, t: Tally, dns: Dns, parent: Parent)
    requires i <= k < |sigs| && sigs[k].Lookup? && parent.oversized(sigs[k].name).Some?
    requires forall name | parent.oversized(name).Some? :: CutOff(Verdict(Unavailable, parent.oversized(name).value))
    ensures CutOff(Converse(budget, sigs, i, t, dns, parent).0)
    decreases k - i
  {
    if budget > 0 {
      match sigs[i]
      case Local(j) =>
        LocalIsSilent(budget, sigs, i, t, dns, parent);
        OversizedEnds(budget, sigs, i + 1, k, Note(t, Judged(j)), dns, parent);
      case Lookup(name, judge) =>
        if parent.oversized(name).None? {
          var u, asked := LookupContinues(budget, sigs, i, t, dns, parent);
          OversizedEnds(budget - 1, sigs, i + 1, k, u, asked, parent);
        } else {
          LookupIsOneMessage(budget, sigs, i, t, dns, parent);
        }
    }
  }

  /** One request line over the limit makes the check unavailable, whatever the other signatures are. */
  lemma OversizedNameHidesVerdict(sigs: seq<Signature>, resolver: Resolver)
    requires 1 <= |sigs| <= MAX_SIGNATURES && !AllFit(sigs, 0, Bounded(resolver))
    ensures CutOff(Checked(sigs, resolver).0)
  {
    var k :| 0 <= k < |sigs| && sigs[k].Lookup? && Oversized(sigs[k].name).Some?;
    OversizedEnds(MAX_SIGNATURES + 1, sigs, 0, k, NO_TALLY, NO_QUERIES, Bounded(resolver));
  }

  /** Reason of the last signature that got no key. */
  function LastReason(outs: seq<Finding>): Option<Reason> {
    if outs == [] then None
    else if LastReason(outs[1..]).Some? then LastReason(outs[1..])
    else if outs[0].NoAnswer? then Some(outs[0].reason) else None
  }

  lemma {:induction false} AbsorbMeaning(t: Tally, outs: seq<Finding>)
    decreases outs
    ensures var r := Absorb(t, outs);
      && (r.valid <==> t.valid || Judged(Verified) in outs)
      && (r.malformed <==> t.malformed || Judged(Malformed) in outs)
      && r.unavailable == (if LastReason(outs).Some? then LastReason(outs) else t.unavailable)
  {
    if outs != [] {
      AbsorbMeaning(Note(t, outs[0]), outs[1..]);
      assert outs == [outs[0]] + outs[1..];
    }
  }

  /** Valid exactly when some signature verified; otherwise unavailable exactly when some key could not be
      had, with the last such reason; otherwise invalid. */
  lemma VerdictMeaning(sigs: seq<Signature>, resolver: Resolver)
    requires 1 <= |sigs| <= MAX_SIGNATURES && AllFit(sigs, 0, Bounded(resolver))
    ensures var outs := Findings(sigs, 0, NO_QUERIES, Bounded(resolver));
      Checked(sigs, resolver).0 ==
        if Judged(Verified) in outs then Verdict(Valid, SignatureVerified)
        else if LastReason(outs).Some? then Verdict(Unavailable, LastReason(outs).value)
        else Verdict(Invalid, if Judged(Malformed) in outs then MalformedSignature else SignatureNotVerified)
  {
    VerdictAlwaysDelivered(sigs, resolver);
    AbsorbMeaning(NO_TALLY, Findings(sigs, 0, NO_QUERIES, Bounded(resolver)));
  }

  /** A resolver reports its own failures; the query limit is not one of them. */
  ghost predicate Ordinary(resolver: Resolver) {
    forall n, name :: resolver(n, name) != Refused(DnsQueryLimit)
  }

  /** Each signature makes at most one resolver call, so with at most five the query limit is never hit
      and every name asked for is a well-formed key name. */
  lemma {:induction false} QueryLimitNeverHit(sigs: seq<Signature>, i: nat, dns: Dns, resolver: Resolver)
    requires i <= |sigs| && Ordinary(resolver) && |dns.queries| + |sigs| - i <= MAX_SIGNATURES
    requires forall q | q in dns.queries :: ValidName(q)
    ensures var after := DnsAfter(sigs, i, dns, Bounded(resolver));
      |after.queries| <= |dns.queries| + |sigs| - i && forall q | q in after.queries :: ValidName(q)
    ensures NoAnswer(DnsQueryLimit) !in Findings(sigs, i, dns, Bounded(resolver))
    decreases |sigs| - i
  {
    if i < |sigs| {
      match sigs[i]
      case Local(_) => QueryLimitNeverHit(sigs, i + 1, dns, resolver);
      case Lookup(name, judge) =>
        var (asked, reply) := AskStep(dns, resolver, name);
        OneCallAtMost(dns, resolver, name);
        QueryLimitNeverHit(sigs, i + 1, asked, resolver);
    }
  }

  /** A call either finds an answer or a refusal at once, or asks for one more well-formed name. */
  lemma AskGrows(dns: Dns, resolver: Resolver, name: string)
    ensures var asked := AskStep(dns, resolver, name).0;
      || asked == dns
      || (ValidName(Normalized(name)) && |dns.queries| < MAX_SIGNATURES && asked.queries == dns.queries + [Normalized(name)])
  {
    var key := Normalized(name);
    if ValidName(key) && key !in dns.cache && |dns.queries| < MAX_SIGNATURES {
      AnswerKeepsQueries(dns.(queries := dns.queries + [key], domains := dns.domains + [key[DomainStart(key, 0).value..]]),
                         key, resolver(|dns.queries|, key));
    }
  }

  lemma AnswerKeepsQueries(dns: Dns, name: string, answer: Answer)
    ensures Answered(dns, name, answer).0.queries == dns.queries
  {
  }

  lemma OneCallAtMost(dns: Dns, resolver: Resolver, name: string)
    requires Ordinary(resolver) && |dns.queries| < MAX_SIGNATURES
    requires forall q | q in dns.queries :: ValidName(q)
    ensures var (asked, reply) := AskStep(dns, resolver, name);
      && reply != Error(DnsQueryLimit)
      && dns.queries <= asked.queries && |asked.queries| <= |dns.queries| + 1
      && forall q | q in asked.queries :: ValidName(q)
  {
    AskGrows(dns, resolver, name);
    AskReply(dns, resolver, name);
  }

  /** What has been asked so far is within the limit and well-formed. */
  ghost predicate Proper(dns: Dns) {
    |dns.queries| <= MAX_SIGNATURES && forall q | q in dns.queries :: ValidName(q)
  }

  lemma AskStaysProper(dns: Dns, resolver: Resolver, name: string)
    requires Proper(dns)
    ensures Proper(AskStep(dns, resolver, name).0)
  {
    AskGrows(dns, resolver, name);
  }

  lemma {:induction false} ConverseStaysProper(budget: nat, sigs: seq<Signature>, i: nat, t: Tally, dns: Dns, parent: Parent)
    requires i <= |sigs| && Proper(dns)
    requires forall d, name | Proper(d) :: Proper(parent.ask(d, name).0)
    ensures Proper(Converse(budget, sigs, i, t, dns, parent).1)
    decreases budget
  {
    if budget > 0 {
      var (j, u) := Advance(sigs, i, t);
      if j < |sigs| && parent.oversized(sigs[j].name).None? {
        var (asked, reply) := parent.ask(dns, sigs[j].name);
        ConverseStaysProper(budget - 1, sigs, j + 1, Note(u, Received(sigs[j].judge, reply)), asked, parent);
      }
    }
  }

  /** Whatever the message and whatever the resolver answers, the whole check makes at most five resolver calls, all
      for well-formed key names. */
  lemma AtMostFiveQueries(sigs: seq<Signature>, resolver: Resolver)
    ensures |Checked(sigs, resolver).1.queries| <= MAX_SIGNATURES
    ensures forall q | q in Checked(sigs, resolver).1.queries :: ValidName(q)
  {
    if 1 <= |sigs| <= MAX_SIGNATURES {
      forall dns, name | Proper(dns) ensures Proper(Bounded(resolver).ask(dns, name).0) {
        AskStaysProper(dns, resolver, name);
      }
      ConverseStaysProper(MAX_SIGNATURES + 1, sigs, 0, NO_TALLY, NO_QUERIES, Bounded(resolver));
    }
  }

  /** The parent never answers with the query limit before it is reached, and counts at most one query an answer. */
  ghost predicate KeepsCount(parent: Parent) {
    && (forall name | parent.oversized(name).Some? :: parent.oversized(name).value != DnsQueryLimit)
    && forall dns: Dns, name: string | |dns.queries| < MAX_SIGNATURES ::
      parent.ask(dns, name).1 != Error(DnsQueryLimit) && |parent.ask(dns, name).0.queries| <= |dns.queries| + 1
  }

  lemma {:induction false} NoLimitWhileConversing(budget: nat, sigs: seq<Signature>, i: nat, t: Tally, dns: Dns, parent: Parent)
    requires i <= |sigs| && KeepsCount(parent) && |dns.queries| + |sigs| - i <= MAX_SIGNATURES
    requires t.unavailable != Some(DnsQueryLimit)
    ensures Converse(budget, sigs, i, t, dns, parent).0.reason != DnsQueryLimit
    decreases budget
  {
    if budget > 0 {
      AdvanceKeepsReason(sigs, i, t);
      var (j, u) := Advance(sigs, i, t);
      if j < |sigs| && parent.oversized(sigs[j].name).None? {
        var (asked, reply) := parent.ask(dns, sigs[j].name);
        NoLimitWhileConversing(budget - 1, sigs, j + 1, Note(u, Received(sigs[j].judge, reply)), asked, parent);
      }
    }
  }

  lemma {:induction false} AdvanceKeepsReason(sigs: seq<Signature>, i: nat, t: Tally)
    requires i <= |sigs|
    ensures Advance(sigs, i, t).1.unavailable == t.unavailable
    decreases |sigs| - i
  {
    if i < |sigs| && sigs[i].Local? {
      AdvanceKeepsReason(sigs, i + 1, Note(t, Judged(sigs[i].judgement)));
    }
  }

  lemma BoundedKeepsCount(resolver: Resolver)
    requires Ordinary(resolver)
    ensures KeepsCount(Bounded(resolver))
  {
    forall dns: Dns, name: string | |dns.queries| < MAX_SIGNATURES
      ensures AskStep(dns, resolver, name).1 != Error(DnsQueryLimit)
      ensures |AskStep(dns, resolver, name).0.queries| <= |dns.queries| + 1
    {
      NoLimitReply(dns, resolver, name);
    }
  }

  lemma NoLimitReply(dns: Dns, resolver: Resolver, name: string)
    requires Ordinary(resolver) && |dns.queries| < MAX_SIGNATURES
    ensures AskStep(dns, resolver, name).1 != Error(DnsQueryLimit)
    ensures |AskStep(dns, resolver, name).0.queries| <= |dns.queries| + 1
  {
    AskGrows(dns, resolver, name);
    AskReply(dns, resolver, name);
  }

  /** Where a reply comes from. */
  predicate Sourced(reply: Reply, dns: Dns, key: string, answer: Answer) {
    match reply
    case Txt(value) => (key in dns.cache && value == dns.cache[key]) || answer == Found(value)
    case Error(r) =>
      r == InvalidDnsName || (r == DnsQueryLimit && |dns.queries| >= MAX_SIGNATURES) || answer == Refused(r)
      || r == DnsTimeout || r == DnsNoKey || r == DnsResponseLimit
  }

  lemma AskReply(dns: Dns, resolver: Resolver, name: string)
    ensures Sourced(AskStep(dns, resolver, name).1, dns, Normalized(name), resolver(|dns.queries|, Normalized(name)))
    ensures AskStep(dns, resolver, name).1.Txt? ==>
      var (asked, reply) := AskStep(dns, resolver, name);
      ValidName(Normalized(name)) && Normalized(name) in asked.cache && asked.cache[Normalized(name)] == reply.value
  {
    var key := Normalized(name);
    if ValidName(key) && key !in dns.cache && |dns.queries| < MAX_SIGNATURES {
      AnswerReply(dns.(queries := dns.queries + [key], domains := dns.domains + [key[DomainStart(key, 0).value..]]),
                  key, resolver(|dns.queries|, key));
    }
  }

  lemma AnswerReply(dns: Dns, key: string, answer: Answer)
    ensures var (asked, reply) := Answered(dns, key, answer);
      match reply
      case Txt(value) => answer == Found(value) && key in asked.cache && asked.cache[key] == value
      case Error(r) => answer == Refused(r) || r == DnsTimeout || r == DnsNoKey || r == DnsResponseLimit
  {
  }

  /** No check ends with dns_query_limit, unless the resolver itself says so. */
  lemma QueryLimitNeverReported(sigs: seq<Signature>, resolver: Resolver)
    requires Ordinary(resolver)
    ensures Checked(sigs, resolver).0.reason != DnsQueryLimit
  {
    if 1 <= |sigs| <= MAX_SIGNATURES {
      BoundedKeepsCount(resolver);
      NoLimitWhileConversing(MAX_SIGNATURES + 1, sigs, 0, NO_TALLY, NO_QUERIES, Bounded(resolver));
    }
  }

  /** A key that was found is asked for once: the same name, in any spelling, is answered again without a call and
      whatever the resolver would now say. */
  lemma FoundOnceAnsweredAgain(dns: Dns, resolver: Resolver, later: Resolver, name: string, spelled: string)
    requires AskStep(dns, resolver, name).1.Txt? && Normalized(spelled) == Normalized(name)
    ensures var (asked, reply) := AskStep(dns, resolver, name); AskStep(asked, later, spelled) == (asked, reply)
  {
    AskReply(dns, resolver, name);
    var (asked, reply) := AskStep(dns, resolver, name);
    CachedAnswer(asked, later, spelled, Normalized(name));
  }

  lemma CachedAnswer(dns: Dns, resolver: Resolver, name: string, key: string)
    requires key == Normalized(name) && ValidName(key) && key in dns.cache
    ensures AskStep(dns, resolver, name) == (dns, Txt(dns.cache[key]))
  {
  }

  /* ---- Delivery, exactly ---- */

  predicate CutOffReason(r: Reason) {
    r == VerificationUnavailable || r == VerificationResourceLimit
  }

  /** The two reasons of a broken exchange are not among a resolver's own. */
  ghost predicate Candid(resolver: Resolver) {
    forall n, name :: match resolver(n, name) case Refused(r) => !CutOffReason(r) case _ => true
  }

  predicate CandidOnly(reply: Reply) {
    reply.Error? ==> !CutOffReason(reply.reason)
  }

  lemma SourcedIsCandid(reply: Reply, dns: Dns, key: string, answer: Answer)
    requires Sourced(reply, dns, key, answer) && (answer.Refused? ==> !CutOffReason(answer.reason))
    ensures CandidOnly(reply)
  {
  }

  lemma CandidReply(dns: Dns, resolver: Resolver, name: string)
    requires Candid(resolver)
    ensures CandidOnly(AskStep(dns, resolver, name).1)
  {
    AskReply(dns, resolver, name);
    SourcedIsCandid(AskStep(dns, resolver, name).1, dns, Normalized(name), resolver(|dns.queries|, Normalized(name)));
  }

  lemma {:induction false} FindingsAreCandid(sigs: seq<Signature>, i: nat, dns: Dns, resolver: Resolver)
    requires i <= |sigs| && Candid(resolver)
    ensures forall r | NoAnswer(r) in Findings(sigs, i, dns, Bounded(resolver)) :: !CutOffReason(r)
    decreases |sigs| - i
  {
    if i < |sigs| {
      match sigs[i]
      case Local(_) => FindingsAreCandid(sigs, i + 1, dns, resolver);
      case Lookup(name, _) =>
        CandidReply(dns, resolver, name);
        FindingsAreCandid(sigs, i + 1, AskStep(dns, resolver, name).0, resolver);
    }
  }

  lemma {:induction false} LastReasonIsAFinding(outs: seq<Finding>)
    ensures LastReason(outs).Some? ==> NoAnswer(LastReason(outs).value) in outs
  {
    if outs != [] {
      LastReasonIsAFinding(outs[1..]);
      assert outs == [outs[0]] + outs[1..];
    }
  }

  /** What worker and resolver would decide as one program is never a broken exchange. */
  lemma OneProgramIsNotCutOff(sigs: seq<Signature>, resolver: Resolver)
    requires Candid(resolver)
    ensures !CutOff(Conclude(Absorb(NO_TALLY, Findings(sigs, 0, NO_QUERIES, Bounded(resolver)))))
  {
    var outs := Findings(sigs, 0, NO_QUERIES, Bounded(resolver));
    FindingsAreCandid(sigs, 0, NO_QUERIES, resolver);
    AbsorbMeaning(NO_TALLY, outs);
    LastReasonIsAFinding(outs);
  }

  /** The exchange delivers what worker and resolver would decide as one program exactly if every request line
      fits, for one to five signatures and any resolver that does not itself report a broken exchange. */
  lemma DeliveredIff(sigs: seq<Signature>, resolver: Resolver)
    requires 1 <= |sigs| <= MAX_SIGNATURES && Candid(resolver)
    ensures Checked(sigs, resolver).0 == Conclude(Absorb(NO_TALLY, Findings(sigs, 0, NO_QUERIES, Bounded(resolver))))
      <==> AllFit(sigs, 0, Bounded(resolver))
  {
    OneProgramIsNotCutOff(sigs, resolver);
    if AllFit(sigs, 0, Bounded(resolver)) {
      VerdictAlwaysDelivered(sigs, resolver);
    } else {
      OversizedNameHidesVerdict(sigs, resolver);
    }
  }

  function Repeated(c: char, n: nat): string {
    seq(n, i requires 0 <= i < n => c)
  }

  /* ---- A key name too long for the pipe ---- */

  predicate AllLabel(word: string) {
    forall i | 0 <= i < |word| :: LabelCharacter(word[i])
  }

  lemma {:induction false} LabelThenRest(word: string, rest: string, run: nat)
    requires AllLabel(word) && 1 <= run + |word| <= 63
    ensures Labels(word + "." + rest, run) == Labels(rest, 0)
  {
    var name := word + "." + rest;
    if word == "" {
      assert name == "." + rest && name[1..] == rest;
    } else {
      assert name[0] == word[0] && LabelCharacter(name[0]);
      assert name[1..] == word[1..] + "." + rest;
      LabelThenRest(word[1..], rest, run + 1);
    }
  }

  lemma {:induction false} LastLabel(word: string, run: nat)
    requires AllLabel(word) && 1 <= run + |word| <= 63
    ensures Labels(word, run)
  {
    if word != "" {
      LastLabel(word[1..], run + 1);
    }
  }

  lemma {:induction false} DomainFound(name: string, from: nat, n: nat)
    requires from <= n && n + 12 <= |name| && name[n..n + 12] == "._domainkey."
    ensures DomainStart(name, from).Some?
    decreases n - from
  {
    if from < n && name[from..from + 12] != "._domainkey." {
      DomainFound(name, from + 1, n);
    }
  }

  /** <selector>._domainkey.<domain>, as the worker asks for it, with the root's dot at the end. */
  function KeyName(selector: string, first: string, last: string): string {
    selector + "._domainkey." + first + "." + last
  }

  lemma KeyNameIsValid(selector: string, first: string, last: string)
    requires AllLabel(selector) && AllLabel(first) && AllLabel(last)
    requires 1 <= |selector| <= 63 && 1 <= |first| <= 63 && 1 <= |last| <= 63
    ensures ValidName(KeyName(selector, first, last))
  {
    var name := KeyName(selector, first, last);
    var tail := first + "." + last;
    assert name == selector + "." + ("_domainkey" + "." + tail);
    LastLabel(last, 0);
    LabelThenRest(first, last, 0);
    LabelThenRest("_domainkey", tail, 0);
    LabelThenRest(selector, "_domainkey" + "." + tail, 0);
    assert name[|selector|..|selector| + 12] == "._domainkey.";
    DomainFound(name, 0, |selector|);
  }

  predicate LowerCase(name: string) {
    forall i | 0 <= i < |name| :: Lower(name[i]) == name[i]
  }

  lemma NormalizedKeyName(name: string)
    requires LowerCase(name) && name != "" && name[|name| - 1] != '.'
    ensures Normalized(name + ".") == name
  {
    assert (name + ".")[..|name|] == name;
    assert Normalized(name) == name;
  }

  lemma {:induction false} JsonLengthAtLeast(name: string)
    ensures JsonLength(name) >= |name|
  {
    if name != "" {
      JsonLengthAtLeast(name[1..]);
    }
  }

  lemma {:induction false} JsonLengthAtMost(name: string)
    ensures JsonLength(name) <= 6 * |name|
  {
    if name != "" {
      JsonLengthAtMost(name[1..]);
    }
  }

  /** A signature whose key is found and verifies it is lost when another one asks under a name too long for the
      pipe. */
  lemma VerifyingSignatureLost(good: string, long: string, key: Bytes, judge: Bytes -> Judgement,
                               other: Bytes -> Judgement, resolver: Resolver)
    requires ValidName(Normalized(good)) && RequestLine(good) <= MAX_LINE && RequestLine(long) > MAX_LINE + 1
    requires resolver(0, Normalized(good)) == Found(key) && 1 <= |key| <= MAX_DNS_BYTES && judge(key) == Verified
    ensures var sigs := [Lookup(good, judge), Lookup(long, other)];
      && Conclude(Absorb(NO_TALLY, Findings(sigs, 0, NO_QUERIES, Bounded(resolver)))) == Verdict(Valid, SignatureVerified)
      && Checked(sigs, resolver).0 == Verdict(Unavailable, VerificationUnavailable)
  {
    var parent := Bounded(resolver);
    FirstKeyIsFound(good, key, resolver);
    var (asked, reply) := parent.ask(NO_QUERIES, good);
    LostBehind(good, long, judge, other, parent, asked, reply);
  }

  lemma FirstKeyIsFound(name: string, key: Bytes, resolver: Resolver)
    requires ValidName(Normalized(name)) && resolver(0, Normalized(name)) == Found(key) && 1 <= |key| <= MAX_DNS_BYTES
    ensures AskStep(NO_QUERIES, resolver, name).1 == Txt(key)
  {
  }

  lemma LostBehind(good: string, long: string, judge: Bytes -> Judgement, other: Bytes -> Judgement, parent: Parent,
                   asked: Dns, reply: Reply)
    requires parent.oversized(good).None? && parent.oversized(long) == Some(VerificationUnavailable)
    requires (asked, reply) == parent.ask(NO_QUERIES, good)
    requires reply.Txt? && ReplyLine(reply) <= MAX_LINE && judge(reply.value) == Verified
    ensures var sigs := [Lookup(good, judge), Lookup(long, other)];
      && Conclude(Absorb(NO_TALLY, Findings(sigs, 0, NO_QUERIES, parent))) == Verdict(Valid, SignatureVerified)
      && Converse(MAX_SIGNATURES + 1, sigs, 0, NO_TALLY, NO_QUERIES, parent).0 == Verdict(Unavailable, VerificationUnavailable)
  {
    var sigs := [Lookup(good, judge), Lookup(long, other)];
    var outs := Findings(sigs, 0, NO_QUERIES, parent);
    assert outs[0] == Judged(Verified);
    AbsorbMeaning(NO_TALLY, outs);
    LookupIsOneMessage(MAX_SIGNATURES + 1, sigs, 0, NO_TALLY, NO_QUERIES, parent);
    LookupIsOneMessage(MAX_SIGNATURES, sigs, 1, Note(NO_TALLY, Received(judge, reply)), asked, parent);
  }

  /** The real form of such names: any ordinary key name beside one with the same domain and a selector of more than
      8200 characters. */
  lemma LongSelectorLosesVerdict(selector: string, first: string, last: string, long: string, key: Bytes,
                                 judge: Bytes -> Judgement, other: Bytes -> Judgement, resolver: Resolver)
    requires AllLabel(selector) && AllLabel(first) && AllLabel(last) && |long| > 8200
    requires 1 <= |selector| <= 63 && 1 <= |first| <= 63 && 1 <= |last| <= 63
    requires resolver(0, KeyName(selector, first, last)) == Found(key) && 1 <= |key| <= MAX_DNS_BYTES && judge(key) == Verified
    ensures var sigs := [Lookup(KeyName(selector, first, last) + ".", judge), Lookup(KeyName(long, first, last) + ".", other)];
      && Conclude(Absorb(NO_TALLY, Findings(sigs, 0, NO_QUERIES, Bounded(resolver)))) == Verdict(Valid, SignatureVerified)
      && Checked(sigs, resolver).0 == Verdict(Unavailable, VerificationUnavailable)
  {
    var good, bad := KeyName(selector, first, last), KeyName(long, first, last);
    KeyNameIsValid(selector, first, last);
    KeyNameIsLower(selector, first, last);
    NormalizedKeyName(good);
    JsonLengthAtMost(good + ".");
    JsonLengthAtLeast(bad + ".");
    VerifyingSignatureLost(good + ".", bad + ".", key, judge, other, resolver);
  }

  lemma KeyNameIsLower(selector: string, first: string, last: string)
    requires AllLabel(selector) && AllLabel(first) && AllLabel(last) && |last| >= 1
    ensures var name := KeyName(selector, first, last); LowerCase(name) && name[|name| - 1] != '.'
  {
    var middle := "._domainkey.";
    assert LowerCase(middle);
    var name := KeyName(selector, first, last);
    assert name == selector + (middle + (first + ("." + last)));
    assert name[|name| - 1] == last[|last| - 1];
  }

  /** One such message: selectors "s" and 8201 times "a" at e.org. */
  lemma VerdictLostAtExample(key: Bytes, judge: Bytes -> Judgement, other: Bytes -> Judgement)
    requires 1 <= |key| <= MAX_DNS_BYTES && judge(key) == Verified
    ensures exists sigs: seq<Signature>, resolver: Resolver ::
      && |sigs| == 2
      && sigs[0] == Lookup(KeyName("s", "e", "org") + ".", judge)
      && sigs[1] == Lookup(KeyName(Repeated('a', 8201), "e", "org") + ".", other)
      && Conclude(Absorb(NO_TALLY, Findings(sigs, 0, NO_QUERIES, Bounded(resolver)))) == Verdict(Valid, SignatureVerified)
      && Checked(sigs, resolver).0 == Verdict(Unavailable, VerificationUnavailable)
  {
    var n := 8201;
    var selector, first, last, long := "s", "e", "org", Repeated('a', n);
    var resolver: Resolver := (k: nat, name: string) => Found(key);
    LongSelectorLosesVerdict(selector, first, last, long, key, judge, other, resolver);
    var sigs := [Lookup(KeyName(selector, first, last) + ".", judge), Lookup(KeyName(long, first, last) + ".", other)];
    assert Checked(sigs, resolver).0 == Verdict(Unavailable, VerificationUnavailable);
  }
}
