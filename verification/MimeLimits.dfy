/** Limits on MIME structure and advertised ZIP expansion (backend/investigation/parser_limits.py). */
module MimeLimits {

  const MAX_PARTS: nat := 200
  const MAX_DEPTH: nat := 20
  const MAX_DECODED: nat := 30 * 1024 * 1024
  const MAX_ENTRIES: nat := 1000
  const MAX_EXPANDED: nat := 100 * 1024 * 1024
  const MAX_RATIO: nat := 200

  /** One entry of a ZIP directory: advertised and compressed sizes. */
  datatype Entry = Entry(fileSize: nat, compressSize: nat)

  /** Decoded leaf content: its size, and whether it is a ZIP archive whose directory can be read. */
  datatype Content = Plain(size: nat) | Archive(size: nat, entries: seq<Entry>) | BrokenArchive(size: nat)

  /** A parsed message: leaves and multipart nodes. */
  datatype Part = Leaf(content: Content) | Multipart(children: seq<Part>)

  /* ---- ZIP directories ---- */

  function TotalSize(entries: seq<Entry>): nat {
    if entries == [] then 0 else entries[0].fileSize + TotalSize(entries[1..])
  }

  predicate Suspicious(e: Entry) {
    e.fileSize > 1024 * 1024 && e.fileSize > MAX_RATIO * (if e.compressSize > 1 then e.compressSize else 1)
  }

  predicate ZipAccepted(content: Content) {
    match content
    case Plain(_) => true
    case BrokenArchive(_) => false
    case Archive(_, entries) =>
      |entries| <= MAX_ENTRIES && TotalSize(entries) <= MAX_EXPANDED && forall e | e in entries :: !Suspicious(e)
  }

  /** The advertised sizes of the first n entries, added up. */
  function Advertised(entries: seq<Entry>, n: nat): nat
    requires n <= |entries|
  {
    if n == 0 then 0 else Advertised(entries, n - 1) + entries[n - 1].fileSize
  }

  lemma {:induction false} TotalIsAdvertised(entries: seq<Entry>, n: nat)
    requires n <= |entries|
    ensures TotalSize(entries[..n]) == Advertised(entries, n)
  {
    if n > 0 {
      TotalIsAdvertised(entries, n - 1);
      assert entries[..n] == entries[..n - 1] + [entries[n - 1]];
      TotalSizeAppend(entries[..n - 1], entries[n - 1]);
    }
  }

  /** The limits of a ZIP directory: 1000 entries, 100 MiB in all, and no entry of more than 1 MiB that expands more
      than 200 times, an entry of no compressed size counting as one byte. One that cannot be read is refused. */
  lemma ZipLimits(content: Content)
    ensures ZipAccepted(content) <==>
      match content
      case Plain(_) => true
      case BrokenArchive(_) => false
      case Archive(_, entries) =>
        && |entries| <= 1000 && Advertised(entries, |entries|) <= 104_857_600
        && forall i | 0 <= i < |entries| :: SmallEnough(entries[i])
  {
    if content.Archive? {
      TotalIsAdvertised(content.entries, |content.entries|);
      assert content.entries[..|content.entries|] == content.entries;
      forall i | 0 <= i < |content.entries| ensures SmallEnough(content.entries[i]) <==> !Suspicious(content.entries[i]) {
      }
    }
  }

  predicate SmallEnough(e: Entry) {
    e.fileSize <= 1_048_576 || e.fileSize <= 200 || e.fileSize <= 200 * e.compressSize
  }

  lemma {:induction false} TotalSizeAppend(a: seq<Entry>, e: Entry)
    ensures TotalSize(a + [e]) == TotalSize(a) + e.fileSize
  {
    if a != [] {
      assert (a + [e])[1..] == a[1..] + [e];
      TotalSizeAppend(a[1..], e);
    }
  }

  method ValidateZip(content: Content) returns (accepted: bool)
    requires !content.Plain?
    ensures accepted <==> ZipAccepted(content)
  {
    if content.BrokenArchive? {
      return false;
    }
    var entries := content.entries;
    var total := 0;
    var suspicious := false;
    for i := 0 to |entries|
      invariant total == TotalSize(entries[..i])
      invariant suspicious <==> exists k :: 0 <= k < i && Suspicious(entries[k])
    {
      TotalSizeAppend(entries[..i], entries[i]);
      assert entries[..i + 1] == entries[..i] + [entries[i]];
      total := total + entries[i].fileSize;
      if Suspicious(entries[i]) {
        suspicious := true;
      }
    }
    assert entries[..|entries|] == entries;
    accepted := |entries| <= MAX_ENTRIES && total <= MAX_EXPANDED && !suspicious;
  }

  /* ---- The tree, as a whole ---- */

  function Nodes(p: Part): nat {
    match p
    case Leaf(_) => 1
    case Multipart(children) => 1 + NodesOf(children)
  }

  function NodesOf(ps: seq<Part>): nat {
    if ps == [] then 0 else Nodes(ps[0]) + NodesOf(ps[1..])
  }

  function Decoded(p: Part): nat {
    match p
    case Leaf(content) => content.size
    case Multipart(children) => DecodedOf(children)
  }

  function DecodedOf(ps: seq<Part>): nat {
    if ps == [] then 0 else Decoded(ps[0]) + DecodedOf(ps[1..])
  }

  /** No node lies more than `levels` below this one. */
  predicate Within(p: Part, levels: int) {
    levels >= 0 && (p.Multipart? ==> forall c | c in p.children :: Within(c, levels - 1))
  }

  predicate ZipsAccepted(p: Part) {
    match p
    case Leaf(content) => ZipAccepted(content)
    case Multipart(children) => forall c | c in children :: ZipsAccepted(c)
  }

  /** What a message has to satisfy, said of the tree alone. */
  predicate Acceptable(p: Part) {
    Nodes(p) <= MAX_PARTS && Within(p, MAX_DEPTH) && Decoded(p) <= MAX_DECODED && ZipsAccepted(p)
  }

  function Deepest(ps: seq<Part>): nat {
    if ps == [] then 0
    else if Height(ps[0]) > Deepest(ps[1..]) then Height(ps[0]) else Deepest(ps[1..])
  }

  /** How far the deepest part lies below this one. */
  function Height(p: Part): nat {
    match p
    case Leaf(_) => 0
    case Multipart(children) => if children == [] then 0 else 1 + Deepest(children)
  }

  lemma {:induction false} DeepestBounds(ps: seq<Part>, bound: int)
    requires bound >= 0
    ensures Deepest(ps) <= bound <==> forall p | p in ps :: Height(p) <= bound
  {
    if ps != [] {
      var first, rest := ps[0], ps[1..];
      DeepestBounds(rest, bound);
      assert ps == [first] + rest;
      assert (forall p | p in ps :: Height(p) <= bound) <==> Height(first) <= bound && forall p | p in rest :: Height(p) <= bound;
    }
  }

  lemma {:induction false} WithinIsHeight(p: Part, levels: int)
    ensures Within(p, levels) <==> Height(p) <= levels
    decreases p
  {
    match p
    case Leaf(_) =>
    case Multipart(children) =>
      forall c | c in children ensures Within(c, levels - 1) <==> Height(c) <= levels - 1 {
        WithinIsHeight(c, levels - 1);
      }
      if levels >= 1 {
        DeepestBounds(children, levels - 1);
        assert (forall c | c in children :: Within(c, levels - 1)) <==> forall c | c in children :: Height(c) <= levels - 1;
      } else if children != [] {
        assert children[0] in children && Height(children[0]) >= 0;
        assert !Within(children[0], levels - 1);
      }
  }

  /** The limits of a message: 200 parts, the deepest 20 below the top, and 30 MiB of decoded leaves, each ZIP archive
      within its own limits. */
  lemma MessageLimits(p: Part)
    ensures Acceptable(p) <==> Nodes(p) <= 200 && Height(p) <= 20 && Decoded(p) <= 31_457_280 && ZipsAccepted(p)
  {
    WithinIsHeight(p, MAX_DEPTH);
  }

  /* ---- The worklist ---- */

  /** A part still to visit, and its depth. */
  datatype Item = Item(part: Part, depth: nat)

  function PendingNodes(items: seq<Item>): nat {
    if items == [] then 0 else Nodes(items[0].part) + PendingNodes(items[1..])
  }

  function PendingDecoded(items: seq<Item>): nat {
    if items == [] then 0 else Decoded(items[0].part) + PendingDecoded(items[1..])
  }

  ghost predicate PendingFine(items: seq<Item>) {
    forall i | i in items :: Within(i.part, MAX_DEPTH - i.depth) && ZipsAccepted(i.part)
  }

  function Items(children: seq<Part>, depth: nat): seq<Item> {
    seq(|children|, i requires 0 <= i < |children| => Item(children[i], depth))
  }

  lemma {:induction false} PendingAppend(a: seq<Item>, b: seq<Item>)
    ensures PendingNodes(a + b) == PendingNodes(a) + PendingNodes(b)
    ensures PendingDecoded(a + b) == PendingDecoded(a) + PendingDecoded(b)
  {
    if a == [] {
      assert a + b == b;
    } else {
      assert (a + b)[1..] == a[1..] + b;
      PendingAppend(a[1..], b);
    }
  }

  lemma {:induction false} PendingChildren(children: seq<Part>, depth: nat)
    ensures PendingNodes(Items(children, depth)) == NodesOf(children)
    ensures PendingDecoded(Items(children, depth)) == DecodedOf(children)
  {
    if children != [] {
      assert Items(children, depth)[1..] == Items(children[1..], depth);
      PendingChildren(children[1..], depth);
    }
  }

  lemma {:induction false} NodesPositive(items: seq<Item>)
    ensures PendingNodes(items) >= |items|
  {
    if items != [] { NodesPositive(items[1..]); }
  }

  /** What has been counted so far and what is still pending together make up the whole message. */
  ghost predicate Accounts(root: Part, pending: seq<Item>, parts: nat, decoded: nat) {
    && parts + PendingNodes(pending) == Nodes(root)
    && decoded + PendingDecoded(pending) == Decoded(root)
    && (Within(root, MAX_DEPTH) && ZipsAccepted(root) <==> PendingFine(pending))
  }

  lemma TakeOut(pending: seq<Item>, k: nat)
    requires k < |pending|
    ensures var rest := pending[..k] + pending[k + 1..];
      && PendingNodes(pending) == PendingNodes(rest) + Nodes(pending[k].part)
      && PendingDecoded(pending) == PendingDecoded(rest) + Decoded(pending[k].part)
      && (PendingFine(pending) <==>
            PendingFine(rest) && Within(pending[k].part, MAX_DEPTH - pending[k].depth) && ZipsAccepted(pending[k].part))
  {
    var item, rest := pending[k], pending[..k] + pending[k + 1..];
    assert pending == pending[..k] + ([item] + pending[k + 1..]);
    PendingAppend(pending[..k], [item] + pending[k + 1..]);
    PendingAppend([item], pending[k + 1..]);
    PendingAppend(pending[..k], pending[k + 1..]);
    assert [item][1..] == [];
    assert forall i :: i in pending <==> i == item || i in rest;
  }

  lemma PutChildren(rest: seq<Item>, children: seq<Part>, depth: nat)
    ensures var more := rest + Items(children, depth);
      && PendingNodes(more) == PendingNodes(rest) + NodesOf(children)
      && PendingDecoded(more) == PendingDecoded(rest) + DecodedOf(children)
      && (PendingFine(more) <==>
            PendingFine(rest) && forall c | c in children :: Within(c, MAX_DEPTH - depth) && ZipsAccepted(c))
  {
    var below := Items(children, depth);
    PendingAppend(rest, below);
    PendingChildren(children, depth);
    assert forall i :: i in rest + below <==> i in rest || i in below;
    forall c | c in children ensures Item(c, depth) in below {
      var n :| 0 <= n < |children| && children[n] == c;
      assert below[n] == Item(c, depth);
    }
    if PendingFine(rest + below) {
      forall c | c in children ensures Within(c, MAX_DEPTH - depth) && ZipsAccepted(c) {
        assert Item(c, depth) in rest + below;
      }
      forall i | i in rest ensures Within(i.part, MAX_DEPTH - i.depth) && ZipsAccepted(i.part) {
        assert i in rest + below;
      }
    }
    forall i | i in below ensures i.part in children && i.depth == depth {
      var n :| 0 <= n < |below| && below[n] == i;
      assert i.part == children[n];
    }
  }

  /** Taking any pending item, not only the last, and pending its children instead keeps the account: the
      visiting order is irrelevant. */
  lemma VisitKeepsAccount(root: Part, pending: seq<Item>, k: nat, parts: nat, decoded: nat, rest: seq<Item>)
    requires Accounts(root, pending, parts, decoded) && k < |pending|
    requires pending[k].depth <= MAX_DEPTH && rest == pending[..k] + pending[k + 1..]
    ensures var item := pending[k];
      match item.part
      case Multipart(children) => Accounts(root, rest + Items(children, item.depth + 1), parts + 1, decoded)
      case Leaf(content) =>
        ZipAccepted(content) ==> Accounts(root, rest, parts + 1, decoded + content.size)
  {
    TakeOut(pending, k);
    match pending[k].part
    case Multipart(children) => PutChildren(rest, children, pending[k].depth + 1);
    case Leaf(content) =>
  }

  /** A refusal at any point of the walk is a fault of the whole message. */
  lemma RefusalIsJustified(root: Part, pending: seq<Item>, k: nat, parts: nat, decoded: nat)
    requires Accounts(root, pending, parts, decoded) && k < |pending|
    ensures parts + 1 > MAX_PARTS || pending[k].depth > MAX_DEPTH ==> !Acceptable(root)
    ensures pending[k].part.Leaf? && decoded + pending[k].part.content.size > MAX_DECODED ==> !Acceptable(root)
    ensures pending[k].part.Leaf? && !ZipAccepted(pending[k].part.content) ==> !Acceptable(root)
  {
    TakeOut(pending, k);
    NodesPositive(pending);
  }

  /** What is pending after item k has been visited: its children instead of itself. */
  function After(pending: seq<Item>, k: nat): seq<Item>
    requires k < |pending|
  {
    var item, rest := pending[k], pending[..k] + pending[k + 1..];
    if item.part.Multipart? then rest + Items(item.part.children, item.depth + 1) else rest
  }

  lemma AfterIsLess(pending: seq<Item>, k: nat)
    requires k < |pending|
    ensures PendingNodes(After(pending, k)) < PendingNodes(pending)
  {
    TakeOut(pending, k);
    match pending[k].part
    case Multipart(children) => PutChildren(pending[..k] + pending[k + 1..], children, pending[k].depth + 1);
    case Leaf(_) =>
  }

  function SizeOf(part: Part): nat {
    if part.Leaf? then part.content.size else 0
  }

  /** The item passes all four checks, given what has been counted before it. */
  predicate Passes(item: Item, parts: nat, decoded: nat) {
    && parts + 1 <= MAX_PARTS && item.depth <= MAX_DEPTH
    && (item.part.Leaf? ==> decoded + item.part.content.size <= MAX_DECODED && ZipAccepted(item.part.content))
  }

  /** The walk that takes whichever pending part `pick` names next. */
  ghost function Walk(pending: seq<Item>, parts: nat, decoded: nat, pick: seq<Item> -> nat): bool
    decreases PendingNodes(pending)
  {
    if pending == [] then true
    else
      var k := pick(pending) % |pending|;
      AfterIsLess(pending, k);
      Passes(pending[k], parts, decoded)
      && Walk(After(pending, k), parts + 1, decoded + SizeOf(pending[k].part), pick)
  }

  lemma VisitPasses(root: Part, pending: seq<Item>, k: nat, parts: nat, decoded: nat)
    requires Accounts(root, pending, parts, decoded) && k < |pending|
    ensures if Passes(pending[k], parts, decoded)
      then Accounts(root, After(pending, k), parts + 1, decoded + SizeOf(pending[k].part))
      else !Acceptable(root)
  {
    RefusalIsJustified(root, pending, k, parts, decoded);
    if pending[k].depth <= MAX_DEPTH {
      VisitKeepsAccount(root, pending, k, parts, decoded, pending[..k] + pending[k + 1..]);
    }
  }

  lemma {:induction false} WalkDecides(root: Part, pending: seq<Item>, parts: nat, decoded: nat, pick: seq<Item> -> nat)
    requires Accounts(root, pending, parts, decoded) && parts <= MAX_PARTS && decoded <= MAX_DECODED
    ensures Walk(pending, parts, decoded, pick) <==> Acceptable(root)
    decreases PendingNodes(pending)
  {
    if pending != [] {
      var k := pick(pending) % |pending|;
      VisitPasses(root, pending, k, parts, decoded);
      AfterIsLess(pending, k);
      if Passes(pending[k], parts, decoded) {
        WalkDecides(root, After(pending, k), parts + 1, decoded + SizeOf(pending[k].part), pick);
      }
    }
  }

  /** Every visiting order comes to the same decision: what the tree as a whole satisfies. */
  lemma VisitingOrderIsIrrelevant(root: Part, pick: seq<Item> -> nat)
    ensures Walk([Item(root, 0)], 0, 0, pick) <==> Acceptable(root)
  {
    var pending := [Item(root, 0)];
    assert pending[1..] == [];
    WalkDecides(root, pending, 0, 0, pick);
  }

  /** The stack loop accepts exactly the messages whose tree is within all four limits. */
  method ValidateMessage(message: Part) returns (accepted: bool)
    ensures accepted <==> Acceptable(message)
  {
    var pending := [Item(message, 0)];
    var parts: nat, decoded: nat := 0, 0;
    assert pending[1..] == [];
    while pending != []
      invariant Accounts(message, pending, parts, decoded)
      invariant parts <= MAX_PARTS && decoded <= MAX_DECODED
      decreases PendingNodes(pending)
    {
      var k := |pending| - 1;
      RefusalIsJustified(message, pending, k, parts, decoded);
      var item := pending[k];
      var rest := pending[..k];
      assert rest == pending[..k] + pending[k + 1..];
      parts := parts + 1;
      if parts > MAX_PARTS || item.depth > MAX_DEPTH {
        return false;
      }
      VisitKeepsAccount(message, pending, k, parts - 1, decoded, rest);
      match item.part {
        case Multipart(children) =>
          pending := rest + Items(children, item.depth + 1);
        case Leaf(content) =>
          pending := rest;
          decoded := decoded + content.size;
          if decoded > MAX_DECODED {
            return false;
          }
          if !content.Plain? {
            var zip := ValidateZip(content);
            if !zip {
              return false;
            }
          }
      }
    }
    accepted := true;
  }
}
