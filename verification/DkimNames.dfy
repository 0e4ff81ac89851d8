/** Key names, protocol lines and DNS answers of the DKIM check, each against what it stands for: the spelling of a
    name, the labels it is made of, the text of a line. */
module DkimNames {
  import opened Common
  import opened DkimExchange
  import opened DkimTheorems

  /* ---- Spelling ---- */

  predicate SpelledAlike(a: string, b: string) {
    |a| == |b| && forall i | 0 <= i < |a| :: SameLetter(a[i], b[i])
  }

  lemma LowerJoinsSpellings(a: char, b: char)
    ensures SameLetter(a, b) <==> Lower(a) == Lower(b)
  {
    UpperIsRange(a);
    UpperIsRange(b);
  }

  lemma {:induction false} SpellingsNormalize(a: string, b: string)
    requires SpelledAlike(a, b)
    ensures Normalized(a) == Normalized(b)
  {
    var n := |a|;
    if n > 0 {
      assert SameLetter(a[n - 1], b[n - 1]);
      UpperIsRange(a[n - 1]);
      UpperIsRange(b[n - 1]);
      if a[n - 1] == '.' {
        SpellingsNormalize(a[..n - 1], b[..n - 1]);
      }
    }
    if n == 0 || a[n - 1] != '.' {
      forall i | 0 <= i < n ensures Lower(a[i]) == Lower(b[i]) {
        LowerJoinsSpellings(a[i], b[i]);
      }
    }
  }

  /** However a key name is spelled, the same key is asked for, found and cached. */
  lemma SpellingIsIrrelevant(dns: Dns, resolver: Resolver, a: string, b: string)
    requires SpelledAlike(a, b)
    ensures AskStep(dns, resolver, a) == AskStep(dns, resolver, b)
  {
    SpellingsNormalize(a, b);
  }

  /** Nor do dots at the end matter. */
  lemma RootDotIsIrrelevant(dns: Dns, resolver: Resolver, name: string)
    ensures AskStep(dns, resolver, name + ".") == AskStep(dns, resolver, name)
  {
    assert (name + ".")[..|name|] == name;
  }

  /* ---- Well-formed names ---- */

  predicate PlainCharacter(c: char) {
    c in "abcdefghijklmnopqrstuvwxyz" || c in "0123456789" || c == '_' || c == '-'
  }

  predicate PlainLabel(word: string) {
    1 <= |word| <= 63 && forall i | 0 <= i < |word| :: PlainCharacter(word[i])
  }

  function Dotted(labels: seq<string>): string
    requires labels != []
  {
    if |labels| == 1 then labels[0] else labels[0] + "." + Dotted(labels[1..])
  }

  predicate IsDotted(plain: string -> bool, labels: seq<string>, name: string) {
    labels != [] && Dotted(labels) == name && forall i | 0 <= i < |labels| :: plain(labels[i])
  }

  predicate MarkAt(name: string, n: nat) {
    n + 12 <= |name| && name[n..n + 12] == "._domainkey."
  }

  lemma SmallIsRange(c: char)
    ensures c in "abcdefghijklmnopqrstuvwxyz" <==> 'a' <= c <= 'z'
  {
    var letters := "abcdefghijklmnopqrstuvwxyz";
    assert forall i | 0 <= i < 26 :: letters[i] as int == 97 + i;
    if 'a' <= c <= 'z' {
      assert letters[c as int - 97] == c;
    }
  }

  lemma DigitIsRange(c: char)
    ensures c in "0123456789" <==> '0' <= c <= '9'
  {
    var digits := "0123456789";
    assert forall i | 0 <= i < 10 :: digits[i] as int == 48 + i;
    if '0' <= c <= '9' {
      assert digits[c as int - 48] == c;
    }
  }

  lemma PlainIsLabel(word: string)
    ensures PlainLabel(word) <==> AllLabel(word) && 1 <= |word| <= 63
  {
    forall i | 0 <= i < |word| ensures PlainCharacter(word[i]) <==> LabelCharacter(word[i]) {
      SmallIsRange(word[i]);
      DigitIsRange(word[i]);
    }
  }

  predicate FitsLabel(word: string) {
    AllLabel(word) && 1 <= |word| <= 63
  }

  lemma {:induction false} DottedHasLabels(labels: seq<string>, name: string)
    requires IsDotted(FitsLabel, labels, name)
    ensures Labels(name, 0)
    decreases |labels|
  {
    assert FitsLabel(labels[0]);
    if |labels| == 1 {
      LastLabel(labels[0], 0);
    } else {
      DottedHasLabels(labels[1..], Dotted(labels[1..]));
      LabelThenRest(labels[0], Dotted(labels[1..]), 0);
    }
  }

  lemma LabelEnds(plain: string -> bool, word: string, labels: seq<string>, name: string)
    requires plain(word) && name != "" && name[0] == '.' && IsDotted(plain, labels, "" + name[1..])
    ensures IsDotted(plain, [word] + labels, word + name)
  {
    assert ([word] + labels)[1..] == labels;
    assert word + name == word + "." + ("" + name[1..]);
  }

  lemma LastLabelEnds(plain: string -> bool, word: string, name: string)
    requires plain(word) && name == ""
    ensures IsDotted(plain, [word], word + name)
  {
    assert word + name == word;
  }

  lemma OneMoreCharacter(word: string, name: string)
    requires AllLabel(word) && name != "" && LabelCharacter(name[0])
    ensures AllLabel(word + [name[0]]) && word + [name[0]] + name[1..] == word + name
  {
  }

  lemma LabelsGoOn(name: string, run: nat)
    requires name != "" && Labels(name, run)
    ensures if name[0] == '.' then 1 <= run <= 63 && Labels(name[1..], 0)
      else LabelCharacter(name[0]) && Labels(name[1..], run + 1)
  {
  }

  /** Reads the labels off, `word` being what is read of the current one. */
  lemma {:induction false} LabelsAreDotted(name: string, word: string) returns (labels: seq<string>)
    requires Labels(name, |word|) && AllLabel(word)
    ensures IsDotted(FitsLabel, labels, word + name)
    decreases |name|
  {
    if name == "" {
      LastLabelEnds(FitsLabel, word, name);
      return [word];
    }
    LabelsGoOn(name, |word|);
    if name[0] == '.' {
      var rest := LabelsAreDotted(name[1..], "");
      LabelEnds(FitsLabel, word, rest, name);
      labels := [word] + rest;
    } else {
      OneMoreCharacter(word, name);
      labels := LabelsAreDotted(name[1..], word + [name[0]]);
    }
  }

  lemma PlainNames(labels: seq<string>, name: string)
    ensures IsDotted(PlainLabel, labels, name) <==> IsDotted(FitsLabel, labels, name)
  {
    forall i | 0 <= i < |labels| ensures PlainLabel(labels[i]) <==> FitsLabel(labels[i]) {
      PlainIsLabel(labels[i]);
    }
  }

  /** The names that are looked up: dot-separated labels of 1 to 63 small letters, digits, underscores and hyphens, at
      most 253 characters in all, with "._domainkey." somewhere. */
  lemma ValidNamesExactly(name: string)
    ensures ValidName(name) <==>
      && |name| <= 253 && (exists n :: MarkAt(name, n)) && exists labels :: IsDotted(PlainLabel, labels, name)
  {
    if ValidName(name) {
      assert MarkAt(name, DomainStart(name, 0).value - 12);
      var labels := LabelsAreDotted(name, "");
      assert "" + name == name;
      PlainNames(labels, name);
    }
    if n, labels :| MarkAt(name, n) && IsDotted(PlainLabel, labels, name) {
      DomainFound(name, 0, n);
      PlainNames(labels, name);
      DottedHasLabels(labels, name);
    }
  }

  /** The signing domain starts after the first mark. */
  lemma {:induction false} DomainStartsAfterFirstMark(name: string, from: nat, n: nat)
    requires from <= n && MarkAt(name, n) && forall k | from <= k < n :: !MarkAt(name, k)
    ensures DomainStart(name, from) == Some(n + 12)
    decreases n - from
  {
    if from < n {
      assert !MarkAt(name, from);
      DomainStartsAfterFirstMark(name, from + 1, n);
    }
  }

  lemma NoMarkInSelector(selector: string, rest: string, k: nat)
    requires AllLabel(selector) && k < |selector|
    ensures !MarkAt(selector + rest, k)
  {
    var name := selector + rest;
    assert name[k] == selector[k] && LabelCharacter(selector[k]);
    if k + 12 <= |name| {
      assert name[k..k + 12][0] != '.';
    }
  }

  /** Of an ordinary key name it is all that follows the mark. */
  lemma DomainOfKeyName(selector: string, first: string, last: string)
    requires AllLabel(selector) && AllLabel(first) && AllLabel(last)
    ensures var name := KeyName(selector, first, last);
      var start := DomainStart(name, 0);
      start.Some? && name[start.value..] == first + "." + last
  {
    var name := KeyName(selector, first, last);
    var rest := "._domainkey." + (first + "." + last);
    assert name == selector + rest;
    assert MarkAt(name, |selector|);
    forall k | 0 <= k < |selector| ensures !MarkAt(name, k) {
      NoMarkInSelector(selector, rest, k);
    }
    DomainStartsAfterFirstMark(name, 0, |selector|);
    assert name[|selector| + 12..] == first + "." + last;
  }

  /* ---- Answers ---- */

  /** What a lookup of a fresh well-formed name comes to while fewer than five were made: the name is recorded with its
      domain, and a key of 1 to 4096 bytes is handed on and remembered; anything else is the reason why not. */
  lemma FreshLookup(dns: Dns, resolver: Resolver, name: string, n: nat)
    requires ValidName(Normalized(name)) && Normalized(name) !in dns.cache
    requires MarkAt(Normalized(name), n) && forall k | 0 <= k < n :: !MarkAt(Normalized(name), k)
    ensures var (asked, reply) := AskStep(dns, resolver, name);
      var key := Normalized(name);
      if |dns.queries| >= 5 then asked == dns && reply == Error(DnsQueryLimit)
      else
        && asked.queries == dns.queries + [key] && asked.domains == dns.domains + [key[n + 12..]]
        && match resolver(|dns.queries|, key)
           case TimedOut => reply == Error(DnsTimeout) && asked.cache == dns.cache
           case Refused(reason) => reply == Error(reason) && asked.cache == dns.cache
           case Found(value) =>
             if |value| == 0 then reply == Error(DnsNoKey) && asked.cache == dns.cache
             else if |value| > 4096 then reply == Error(DnsResponseLimit) && asked.cache == dns.cache
             else reply == Txt(value) && asked.cache == dns.cache[key := value]
  {
    DomainStartsAfterFirstMark(Normalized(name), 0, n);
  }

  /** A name that is not well-formed is refused without asking anyone. */
  lemma MalformedNameIsRefused(dns: Dns, resolver: Resolver, name: string)
    requires |Normalized(name)| > 253 || (forall labels :: !IsDotted(PlainLabel, labels, Normalized(name))) || forall n :: !MarkAt(Normalized(name), n)
    ensures AskStep(dns, resolver, name) == (dns, Error(InvalidDnsName))
  {
    ValidNamesExactly(Normalized(name));
  }

  /** Without a signature, or with more than five, nothing is looked up: the message is unsigned, or its check is
      unavailable. */
  lemma SignatureCountDecides(sigs: seq<Signature>, resolver: Resolver)
    ensures |sigs| == 0 ==> Checked(sigs, resolver) == (Verdict(Unsigned, NoSignature), Dns([], [], map[]))
    ensures |sigs| > 5 ==> Checked(sigs, resolver) == (Verdict(Unavailable, SignatureLimit), Dns([], [], map[]))
  {
  }

  /** A message whose one signature names its key in any spelling is valid when the key is there and verifies it. */
  lemma SpelledSignatureVerifies(selector: string, first: string, last: string, spelled: string, key: Bytes,
                                 judge: Bytes -> Judgement, resolver: Resolver)
    requires PlainLabel(selector) && PlainLabel(first) && PlainLabel(last)
    requires SpelledAlike(spelled, KeyName(selector, first, last) + ".")
    requires resolver(0, KeyName(selector, first, last)) == Found(key) && 1 <= |key| <= 4096 && judge(key) == Verified
    ensures var (verdict, dns) := Checked([Lookup(spelled, judge)], resolver);
      verdict == Verdict(Valid, SignatureVerified) && dns.queries == [KeyName(selector, first, last)]
      && dns.domains == [first + "." + last]
  {
    PlainIsLabel(selector);
    PlainIsLabel(first);
    PlainIsLabel(last);
    var name := KeyName(selector, first, last);
    KeyNameIsValid(selector, first, last);
    KeyNameIsLower(selector, first, last);
    NormalizedKeyName(name);
    SpellingsNormalize(spelled, name + ".");
    DomainOfKeyName(selector, first, last);
    JsonLengthAtMost(spelled);
    FoundKeyDecides(spelled, name, key, judge, resolver);
  }

  lemma FoundKeyDecides(spelled: string, name: string, key: Bytes, judge: Bytes -> Judgement, resolver: Resolver)
    requires Normalized(spelled) == name && ValidName(name) && RequestLine(spelled) <= MAX_LINE
    requires resolver(0, name) == Found(key) && 1 <= |key| <= MAX_DNS_BYTES && judge(key) == Verified
    ensures Checked([Lookup(spelled, judge)], resolver)
      == (Verdict(Valid, SignatureVerified), Dns([name], [name[DomainStart(name, 0).value..]], map[name := key]))
  {
    FirstLookup(spelled, name, key, resolver);
    OneVerifyingSignature(spelled, judge, Bounded(resolver), AskStep(NO_QUERIES, resolver, spelled).0, key);
  }

  lemma FirstLookup(spelled: string, name: string, key: Bytes, resolver: Resolver)
    requires Normalized(spelled) == name && ValidName(name) && resolver(0, name) == Found(key) && 1 <= |key| <= MAX_DNS_BYTES
    ensures AskStep(NO_QUERIES, resolver, spelled)
      == (Dns([name], [name[DomainStart(name, 0).value..]], map[name := key]), Txt(key))
  {
    var domain := name[DomainStart(name, 0).value..];
    assert [] + [name] == [name] && [] + [domain] == [domain];
    assert NO_QUERIES.cache[name := key] == map[name := key];
  }

  lemma OneVerifyingSignature(name: string, judge: Bytes -> Judgement, parent: Parent, asked: Dns, key: Bytes)
    requires parent.oversized(name).None? && parent.ask(NO_QUERIES, name) == (asked, Txt(key))
    requires |key| <= MAX_DNS_BYTES && judge(key) == Verified
    ensures Converse(MAX_SIGNATURES + 1, [Lookup(name, judge)], 0, NO_TALLY, NO_QUERIES, parent)
      == (Verdict(Valid, SignatureVerified), asked)
  {
    var sigs, t := [Lookup(name, judge)], Note(NO_TALLY, Judged(Verified));
    LookupIsOneMessage(MAX_SIGNATURES + 1, sigs, 0, NO_TALLY, NO_QUERIES, parent);
    assert Advance(sigs, 1, t) == (1, t);
  }

  /* ---- Lines ---- */

  const HEX := "0123456789abcdef"

  /** What json.dumps writes for one ASCII character. */
  function JsonEscape(c: char): string {
    if c == '"' then "\\\""
    else if c == '\\' then "\\\\"
    else if c == '\n' then "\\n"
    else if c == '\r' then "\\r"
    else if c == '\t' then "\\t"
    else if c == 8 as char then "\\b"
    else if c == 12 as char then "\\f"
    else if ' ' <= c <= '~' then [c]
    else "\\u" + [HEX[c as int / 4096 % 16], HEX[c as int / 256 % 16], HEX[c as int / 16 % 16], HEX[c as int % 16]]
  }

  function JsonText(text: string): string {
    if text == "" then "" else JsonEscape(text[0]) + JsonText(text[1..])
  }

  /** The line by which the worker asks for a key. */
  function RequestText(name: string): string {
    "{\"dns\": \"" + JsonText(name) + "\"}\n"
  }

  lemma {:induction false} JsonLengthIsLength(text: string)
    ensures |JsonText(text)| == JsonLength(text)
  {
    if text != "" {
      JsonLengthIsLength(text[1..]);
    }
  }

  /** Which request lines end the exchange: those whose text is longer than 8192 characters, with or without the line
      feed; the reason tells which. */
  lemma OversizedLines(name: string)
    ensures RequestLine(name) == |RequestText(name)|
    ensures Oversized(name) ==
      if |RequestText(name)| <= 8192 then None
      else if |RequestText(name)| == 8193 then Some(VerificationResourceLimit) else Some(VerificationUnavailable)
  {
    JsonLengthIsLength(name);
  }

  const BASE64 := "ABCDEFGHIJKLMNOPQRSTUVWXYZabcdefghijklmnopqrstuvwxyz0123456789+/"

  /** Four characters for the first three bytes, those of an incomplete group made up with `=`. */
  function Group(digits: string, value: Bytes): (r: string)
    requires |digits| == 64 && value != []
    ensures |r| == 4
  {
    var a := value[0] as int;
    var b := if |value| > 1 then value[1] as int else 0;
    var c := if |value| > 2 then value[2] as int else 0;
    [digits[a / 4], digits[a % 4 * 16 + b / 16],
     if |value| > 1 then digits[b % 16 * 4 + c / 64] else '=', if |value| > 2 then digits[c % 64] else '=']
  }

  function Base64(digits: string, value: Bytes): string
    requires |digits| == 64
  {
    if value == [] then "" else if |value| <= 3 then Group(digits, value) else Group(digits, value) + Base64(digits, value[3..])
  }

  /** The line by which the parent hands a key on. */
  function TxtText(value: Bytes): string {
    "{\"txt\": \"" + Base64(BASE64, value) + "\"}\n"
  }

  lemma {:induction false} Base64Length(digits: string, value: Bytes)
    requires |digits| == 64
    ensures |Base64(digits, value)| == (|value| + 2) / 3 * 4
  {
    if |value| > 3 {
      Base64Length(digits, value[3..]);
    }
  }

  /** A key of at most 4096 bytes makes a line that the worker reads whole, and what it judges is that key. */
  lemma KeyLineIsRead(value: Bytes, judge: Bytes -> Judgement)
    ensures ReplyLine(Txt(value)) == |TxtText(value)|
    ensures |value| <= 4096 ==> |TxtText(value)| <= 8192
    ensures |TxtText(value)| <= 8192 <==> Received(judge, Txt(value)) == Judged(judge(value))
  {
    Base64Length(BASE64, value);
  }
}
