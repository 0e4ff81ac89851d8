/** Backup archives and their manifest (backend/investigation/backup.py): pack and unpack_verified. */
module BackupArchive {
  import opened Common
  import opened PathNames

  const MAX_MEMBERS: nat := 1_000_000
  const MANIFEST: string := "manifest.json"

  /** A member of a tar file: a regular file or something else. */
  datatype Member<N> = Member(name: N, regular: bool, content: Bytes)

  datatype Entry = Entry(sha256: string, size: nat)

  datatype Manifest = Manifest(format: int, files: map<string, Entry>)

  /** The digest and the JSON text of a manifest; text that is no manifest reads as None. */
  datatype Formats = Formats(digest: Bytes -> string, dump: Manifest -> Bytes, load: Bytes -> Option<Manifest>) {
    ghost predicate Valid() {
      forall m: Manifest :: load(dump(m)) == Some(m)
    }
  }

  datatype Error = TargetNotEmpty | TooManyMembers | UnsafeMember | BadTree | Unreadable | ManifestMismatch
    | ChecksumMismatch | Symlink | ReservedName

  datatype Result<+T> = Ok(value: T) | Err(error: Error)

  /** Files by name, as they lie under a directory. */
  type Tree = map<string, Bytes>

  /* ---- Staging, for any kind of names and tests on them ---- */

  /** `accepted`: the loop's test of a name. `creatable`, `clash`: a file can be created at the name, and two
      files cannot both exist. */
  datatype Rules<!N> = Rules(accepted: N -> bool, creatable: N -> bool, clash: (N, N) -> bool)

  /** Files created one after another. */
  function Stage<N(==)>(rules: Rules<N>, members: seq<Member<N>>, tree: map<N, Bytes>): Result<map<N, Bytes>> {
    if members == [] then Ok(tree)
    else
      var m := members[0];
      if !m.regular || !rules.accepted(m.name) || m.name in tree then Err(UnsafeMember)
      else if !rules.creatable(m.name) || exists other | other in tree :: rules.clash(m.name, other) then Err(BadTree)
      else Stage(rules, members[1..], tree[m.name := m.content])
  }

  /** The tree with all members put into it. */
  function With<N(==)>(members: seq<Member<N>>, tree: map<N, Bytes>): map<N, Bytes> {
    if members == [] then tree else With(members[1..], tree[members[0].name := members[0].content])
  }

  predicate Named<N(==)>(members: seq<Member<N>>, name: N) {
    exists i :: 0 <= i < |members| && members[i].name == name
  }

  predicate DistinctNames<N(==)>(members: seq<Member<N>>) {
    forall i, j | 0 <= i < j < |members| :: members[i].name != members[j].name
  }

  predicate Apart<N(==)>(rules: Rules<N>, name: N, other: N) {
    name != other && !rules.clash(name, other)
  }

  predicate Usable<N>(rules: Rules<N>, m: Member<N>) {
    m.regular && rules.accepted(m.name) && rules.creatable(m.name)
  }

  /** Usable regular files, apart from the tree's files and from each other: the files of one directory. */
  predicate AllFit<N(==)>(rules: Rules<N>, members: seq<Member<N>>, tree: map<N, Bytes>) {
    && (forall i | 0 <= i < |members| :: Usable(rules, members[i]))
    && (forall i, other | 0 <= i < |members| && other in tree :: Apart(rules, members[i].name, other))
    && (forall i, j | 0 <= i < j < |members| :: Apart(rules, members[j].name, members[i].name))
  }

  lemma FitSplits<N>(rules: Rules<N>, members: seq<Member<N>>, tree: map<N, Bytes>)
    requires members != []
    ensures var m := members[0];
      AllFit(rules, members, tree) <==>
        && Usable(rules, m) && (forall other | other in tree :: Apart(rules, m.name, other))
        && AllFit(rules, members[1..], tree[m.name := m.content])
  {
    var m := members[0];
    assert members == [m] + members[1..];
    var more := tree[m.name := m.content];
    if AllFit(rules, members[1..], more) {
      forall i | 0 < i < |members| ensures Apart(rules, members[i].name, m.name) {
        assert members[1..][i - 1] == members[i] && m.name in more;
      }
      forall i, other | 0 < i < |members| && other in tree ensures Apart(rules, members[i].name, other) {
        assert members[1..][i - 1] == members[i] && other in more;
      }
      forall i, j | 0 < i < j < |members| ensures Apart(rules, members[j].name, members[i].name) {
        assert members[1..][i - 1] == members[i] && members[1..][j - 1] == members[j];
      }
    }
  }

  /** Staging succeeds exactly for members that fit, and then holds all of them. */
  lemma {:induction false} StageAccepts<N>(rules: Rules<N>, members: seq<Member<N>>, tree: map<N, Bytes>)
    ensures Stage(rules, members, tree).Ok? <==> AllFit(rules, members, tree)
    ensures Stage(rules, members, tree).Ok? ==> Stage(rules, members, tree).value == With(members, tree)
  {
    if members != [] {
      var m := members[0];
      FitSplits(rules, members, tree);
      StageAccepts(rules, members[1..], tree[m.name := m.content]);
      assert (forall other | other in tree :: Apart(rules, m.name, other)) <==>
        m.name !in tree && !exists other | other in tree :: rules.clash(m.name, other);
    }
  }

  lemma FitIsDistinct<N>(rules: Rules<N>, members: seq<Member<N>>, tree: map<N, Bytes>)
    requires AllFit(rules, members, tree)
    ensures DistinctNames(members)
  {
    forall i, j | 0 <= i < j < |members| ensures members[i].name != members[j].name {
      assert Apart(rules, members[j].name, members[i].name);
    }
  }

  /** One more member at the end. */
  lemma FitOneMore<N>(rules: Rules<N>, members: seq<Member<N>>, m: Member<N>)
    ensures AllFit(rules, members + [m], map[]) <==>
      && AllFit(rules, members, map[]) && Usable(rules, m)
      && forall i | 0 <= i < |members| :: Apart(rules, m.name, members[i].name)
  {
    var all := members + [m];
    assert all[|members|] == m;
    if AllFit(rules, all, map[]) {
      forall i | 0 <= i < |members| ensures Usable(rules, members[i]) && Apart(rules, m.name, members[i].name) {
        assert all[i] == members[i];
      }
      forall i, j | 0 <= i < j < |members| ensures Apart(rules, members[j].name, members[i].name) {
        assert all[i] == members[i] && all[j] == members[j];
      }
    }
  }

  /** Distinct members lie in the tree under their names, and besides them only what was there. */
  lemma {:induction false} WithHolds<N>(members: seq<Member<N>>, tree: map<N, Bytes>)
    requires DistinctNames(members) && forall i | 0 <= i < |members| :: members[i].name !in tree
    ensures forall name :: name in With(members, tree) <==> name in tree || Named(members, name)
    ensures forall name | name in tree :: With(members, tree)[name] == tree[name]
    ensures forall i | 0 <= i < |members| :: members[i].name in With(members, tree) && With(members, tree)[members[i].name] == members[i].content
  {
    if members != [] {
      var m, tail := members[0], members[1..];
      assert members == [m] + tail;
      assert DistinctNames(tail);
      forall i | 0 <= i < |tail| ensures tail[i].name !in tree[m.name := m.content] {
        assert tail[i] == members[i + 1];
      }
      WithHolds(tail, tree[m.name := m.content]);
      forall name ensures Named(members, name) <==> name == m.name || Named(tail, name) {
        if Named(tail, name) {
          var i :| 0 <= i < |tail| && tail[i].name == name;
          assert members[i + 1].name == name;
        } else if name == m.name {
          assert members[0].name == name;
        }
      }
      forall i | 0 <= i < |members|
        ensures members[i].name in With(members, tree) && With(members, tree)[members[i].name] == members[i].content
      {
        if i > 0 {
          assert tail[i - 1] == members[i];
        }
      }
    }
  }

  /* ---- Archives ---- */

  /** The single dot passes the test, but is the directory itself. */
  predicate NotDot(name: string) {
    name != "."
  }

  const TAR: Rules<string> := Rules(NameAccepted, NotDot, Clash)

  predicate EntryMatches(f: Formats, content: Bytes, e: Entry) {
    e == Entry(f.digest(content), |content|)
  }

  /** The manifest lists all other files, with their digests and sizes. */
  predicate Describes(f: Formats, manifest: Manifest, tree: Tree) {
    && manifest.format == 1 && manifest.files.Keys == tree.Keys - {MANIFEST}
    && forall name | name in manifest.files && name in tree :: EntryMatches(f, tree[name], manifest.files[name])
  }

  function Verify(f: Formats, tree: Tree): Result<Tree> {
    if MANIFEST !in tree || f.load(tree[MANIFEST]).None? then Err(Unreadable)
    else
      var manifest := f.load(tree[MANIFEST]).value;
      if Describes(f, manifest, tree) then Ok(tree)
      else if manifest.format != 1 || manifest.files.Keys != tree.Keys - {MANIFEST} then Err(ManifestMismatch)
      else Err(ChecksumMismatch)
  }

  /** The restored tree for an archive, or the reason it is refused. */
  function Unpacked(f: Formats, members: seq<Member<string>>, target: Tree): Result<Tree> {
    if target != map[] then Err(TargetNotEmpty)
    else if |members| > MAX_MEMBERS then Err(TooManyMembers)
    else
      var staged := Stage(TAR, members, map[]);
      if staged.Err? then staged else Verify(f, staged.value)
  }

  method CheckManifest(f: Formats, staging: Tree) returns (r: Result<Tree>)
    ensures r == Verify(f, staging)
  {
    if MANIFEST !in staging {
      return Err(Unreadable);
    }
    var loaded := f.load(staging[MANIFEST]);
    if loaded.None? {
      return Err(Unreadable);
    }
    var files := loaded.value.files;
    if loaded.value.format != 1 || files.Keys != staging.Keys - {MANIFEST} {
      return Err(ManifestMismatch);
    }
    var rest := files.Keys;
    while rest != {}
      invariant rest <= files.Keys
      invariant forall name | name in files.Keys - rest :: EntryMatches(f, staging[name], files[name])
      decreases |rest|
    {
      var name :| name in rest;
      if |staging[name]| != files[name].size || f.digest(staging[name]) != files[name].sha256 {
        assert !EntryMatches(f, staging[name], files[name]);
        return Err(ChecksumMismatch);
      }
      rest := rest - {name};
    }
    r := Ok(staging);
  }

  /** The loop over the members. */
  method StageMembers(members: seq<Member<string>>) returns (r: Result<Tree>)
    ensures r == Stage(TAR, members, map[])
  {
    var staging: Tree, seen: set<string> := map[], {};
    assert members[0..] == members;
    for i := 0 to |members|
      invariant seen == staging.Keys
      invariant Stage(TAR, members, map[]) == Stage(TAR, members[i..], staging)
    {
      var m := members[i];
      assert members[i..][1..] == members[i + 1..];
      if !m.regular || !NameAccepted(m.name) || m.name in seen {
        return Err(UnsafeMember);
      }
      if m.name == "." || exists other | other in staging :: Clash(m.name, other) {
        return Err(BadTree);
      }
      seen := seen + {m.name};
      staging := staging[m.name := m.content];
    }
    r := Ok(staging);
  }

  method UnpackVerified(f: Formats, members: seq<Member<string>>, target: Tree) returns (r: Result<Tree>)
    ensures r == Unpacked(f, members, target)
  {
    if target != map[] {
      return Err(TargetNotEmpty);
    }
    if |members| > MAX_MEMBERS {
      return Err(TooManyMembers);
    }
    r := StageMembers(members);
    if r.Err? {
      return;
    }
    r := CheckManifest(f, r.value);
  }

  /** An archive is accepted into an empty target exactly if it is small enough, its members form a directory
      tree with a readable manifest of format 1, and the manifest lists all other files with their sizes and
      digests; what is restored is then that tree and nothing else. */
  lemma AcceptedArchives(f: Formats, members: seq<Member<string>>, tree: Tree)
    ensures Unpacked(f, members, map[]) == Ok(tree) <==>
      && |members| <= MAX_MEMBERS && AllFit(TAR, members, map[]) && tree == With(members, map[])
      && MANIFEST in tree && f.load(tree[MANIFEST]).Some?
      && Describes(f, f.load(tree[MANIFEST]).value, tree)
  {
    StageAccepts(TAR, members, map[]);
  }

  /** What a restored tree holds: the content of every member, and no other file. */
  lemma RestoredContents(f: Formats, members: seq<Member<string>>, tree: Tree)
    requires Unpacked(f, members, map[]) == Ok(tree)
    ensures forall name :: name in tree <==> Named(members, name)
    ensures forall i | 0 <= i < |members| :: members[i].name in tree && tree[members[i].name] == members[i].content
  {
    AcceptedArchives(f, members, tree);
    FitIsDistinct(TAR, members, map[]);
    WithHolds(members, map[]);
  }

  /** Staging stops at the first member that does not fit with those before it: as unsafe if it is no regular file, its
      name is not accepted or has been seen, and otherwise because it cannot be created in the tree. */
  lemma {:induction false} FirstMisfit<N>(rules: Rules<N>, members: seq<Member<N>>, tree: map<N, Bytes>) returns (i: nat)
    requires Stage(rules, members, tree).Err?
    ensures i < |members| && AllFit(rules, members[..i], tree) && !AllFit(rules, members[..i + 1], tree)
    ensures var unsafe := !members[i].regular || !rules.accepted(members[i].name) || members[i].name in tree || Named(members[..i], members[i].name);
      Stage(rules, members, tree) == Err(if unsafe then UnsafeMember else BadTree)
  {
    var m, tail := members[0], members[1..];
    if !m.regular || !rules.accepted(m.name) || m.name in tree || !rules.creatable(m.name) || exists other | other in tree :: rules.clash(m.name, other) {
      i := 0;
      assert members[..1] == [m] && members[..0] == [];
      FitSplits(rules, members[..1], tree);
      if other :| other in tree && rules.clash(m.name, other) {
        assert !Apart(rules, m.name, other);
      }
    } else {
      var more := tree[m.name := m.content];
      var k := FirstMisfit(rules, tail, more);
      i := k + 1;
      MisfitLater(rules, members, tree, k);
    }
  }

  lemma MisfitLater<N>(rules: Rules<N>, members: seq<Member<N>>, tree: map<N, Bytes>, k: nat)
    requires members != [] && k < |members| - 1 && Usable(rules, members[0])
    requires forall other | other in tree :: Apart(rules, members[0].name, other)
    ensures var m, tail := members[0], members[1..];
      var more := tree[m.name := m.content];
      && (AllFit(rules, members[..k + 1], tree) <==> AllFit(rules, tail[..k], more))
      && (AllFit(rules, members[..k + 2], tree) <==> AllFit(rules, tail[..k + 1], more))
      && members[k + 1] == tail[k]
      && (tail[k].name in tree || Named(members[..k + 1], tail[k].name) <==> tail[k].name in more || Named(tail[..k], tail[k].name))
  {
    var m, tail := members[0], members[1..];
    FitSplits(rules, members[..k + 1], tree);
    FitSplits(rules, members[..k + 2], tree);
    assert members[..k + 1][1..] == tail[..k] && members[..k + 2][1..] == tail[..k + 1];
    var name := tail[k].name;
    if Named(members[..k + 1], name) {
      var i :| 0 <= i < |members[..k + 1]| && members[..k + 1][i].name == name;
      if i > 0 { assert tail[..k][i - 1].name == name; }
    }
    if Named(tail[..k], name) {
      var i :| 0 <= i < |tail[..k]| && tail[..k][i].name == name;
      assert members[..k + 1][i + 1].name == name;
    }
    assert members[..k + 1][0] == m;
  }

  /** The manifest names every file but itself. */
  ghost predicate ListsAll(manifest: Manifest, tree: Tree) {
    forall name :: name in manifest.files <==> name in tree && name != "manifest.json"
  }

  /** The manifest is wrong about the size or the digest of this file. */
  predicate WrongEntry(f: Formats, manifest: Manifest, tree: Tree, name: string) {
    name in manifest.files && name in tree
    && (manifest.files[name].size != |tree[name]| || manifest.files[name].sha256 != f.digest(tree[name]))
  }

  /** What an archive is refused for, in this order: a target that is not empty, more than a million members, a member
      that does not fit, a manifest that is missing or cannot be read, one of another format or of other files, and one
      that is wrong about a size or a digest. */
  lemma UnpackAnswers(f: Formats, members: seq<Member<string>>, target: Tree)
    ensures var r := Unpacked(f, members, target);
      if target != map[] then r == Err(TargetNotEmpty)
      else if |members| > 1_000_000 then r == Err(TooManyMembers)
      else if !AllFit(TAR, members, map[]) then r == Err(UnsafeMember) || r == Err(BadTree)
      else
        var tree := With(members, map[]);
        if "manifest.json" !in tree || f.load(tree["manifest.json"]).None? then r == Err(Unreadable)
        else
          var manifest := f.load(tree["manifest.json"]).value;
          if manifest.format != 1 || !ListsAll(manifest, tree) then r == Err(ManifestMismatch)
          else if exists name :: WrongEntry(f, manifest, tree, name) then r == Err(ChecksumMismatch)
          else r == Ok(tree)
  {
    StageAccepts(TAR, members, map[]);
    if Stage(TAR, members, map[]).Err? {
      var i := FirstMisfit(TAR, members, map[]);
    } else {
      ManifestAnswers(f, With(members, map[]));
    }
  }

  lemma ManifestAnswers(f: Formats, tree: Tree)
    ensures var r := Verify(f, tree);
      if "manifest.json" !in tree || f.load(tree["manifest.json"]).None? then r == Err(Unreadable)
      else
        var manifest := f.load(tree["manifest.json"]).value;
        if manifest.format != 1 || !ListsAll(manifest, tree) then r == Err(ManifestMismatch)
        else if exists name :: WrongEntry(f, manifest, tree, name) then r == Err(ChecksumMismatch)
        else r == Ok(tree)
  {
    if MANIFEST in tree && f.load(tree[MANIFEST]).Some? {
      var manifest := f.load(tree[MANIFEST]).value;
      assert ListsAll(manifest, tree) <==> manifest.files.Keys == tree.Keys - {MANIFEST};
      forall name | name in manifest.files && name in tree
        ensures WrongEntry(f, manifest, tree, name) <==> !EntryMatches(f, tree[name], manifest.files[name])
      {
      }
    }
  }

  /* ---- pack ---- */

  /** What the sorted walk of the source directory meets. */
  datatype Item = File(name: string, content: Bytes) | Directory(name: string) | SymbolicLink(name: string)

  /** The files met, in order. */
  function FilesOf(items: seq<Item>): seq<Member<string>> {
    if items == [] then []
    else
      var rest, last := FilesOf(items[..|items| - 1]), items[|items| - 1];
      if last.File? then rest + [Member(last.name, true, last.content)] else rest
  }

  function Entries(f: Formats, members: seq<Member<string>>): map<string, Entry> {
    if members == [] then map[]
    else
      var last := members[|members| - 1];
      Entries(f, members[..|members| - 1])[last.name := Entry(f.digest(last.content), |last.content|)]
  }

  /** The archive of some files: the files themselves and, last, the manifest. */
  function Archive(f: Formats, members: seq<Member<string>>): seq<Member<string>> {
    members + [Member(MANIFEST, true, f.dump(Manifest(1, Entries(f, members))))]
  }

  predicate HasLink(items: seq<Item>) {
    exists i :: 0 <= i < |items| && items[i].SymbolicLink?
  }

  /** Symbolic links and the manifest's own name are refused; a directory of that name makes the write fail. */
  function Packed(f: Formats, items: seq<Item>): Result<seq<Member<string>>> {
    if HasLink(items) then Err(Symlink)
    else if Named(FilesOf(items), MANIFEST) then Err(ReservedName)
    else if Directory(MANIFEST) in items then Err(BadTree)
    else Ok(Archive(f, FilesOf(items)))
  }

  method Pack(f: Formats, items: seq<Item>) returns (r: Result<seq<Member<string>>>)
    ensures r == Packed(f, items)
  {
    var files: map<string, Entry>, members: seq<Member<string>> := map[], [];
    for i := 0 to |items|
      invariant members == FilesOf(items[..i]) && files == Entries(f, members)
      invariant !HasLink(items[..i])
    {
      var item := items[i];
      assert items[..i + 1][..i] == items[..i];
      if item.SymbolicLink? {
        return Err(Symlink);
      }
      if item.File? {
        files := files[item.name := Entry(f.digest(item.content), |item.content|)];
        assert (members + [Member(item.name, true, item.content)])[..|members|] == members;
        members := members + [Member(item.name, true, item.content)];
      }
    }
    assert items[..|items|] == items;
    EntriesAreNames(f, members, MANIFEST);
    if MANIFEST in files {
      return Err(ReservedName);
    }
    if Directory(MANIFEST) in items {
      return Err(BadTree);
    }
    r := Ok(members + [Member(MANIFEST, true, f.dump(Manifest(1, files)))]);
  }

  lemma {:induction false} FilesAreItems(items: seq<Item>, name: string)
    ensures Named(FilesOf(items), name) <==> exists i :: 0 <= i < |items| && items[i].File? && items[i].name == name
  {
    if items != [] {
      var front, last := items[..|items| - 1], items[|items| - 1];
      FilesAreItems(front, name);
      if last.File? {
        var m := Member(last.name, true, last.content);
        assert (FilesOf(front) + [m])[..|FilesOf(front)|] == FilesOf(front);
        NamedSnoc(FilesOf(front) + [m], name);
      }
      if i :| 0 <= i < |front| && front[i].File? && front[i].name == name {
        assert items[i] == front[i];
      }
    }
  }

  /** A directory is packed unless it holds a symbolic link, or a file or directory in the manifest's place. */
  lemma PackAnswers(f: Formats, items: seq<Item>)
    ensures var r := Packed(f, items);
      if exists i :: 0 <= i < |items| && items[i].SymbolicLink? then r == Err(Symlink)
      else if exists i :: 0 <= i < |items| && items[i].File? && items[i].name == "manifest.json" then r == Err(ReservedName)
      else if exists i :: 0 <= i < |items| && items[i] == Directory("manifest.json") then r == Err(BadTree)
      else r.Ok? && |r.value| == |FilesOf(items)| + 1 && r.value[..|FilesOf(items)|] == FilesOf(items)
  {
    FilesAreItems(items, MANIFEST);
  }

  lemma NamedSnoc(members: seq<Member<string>>, name: string)
    requires members != []
    ensures Named(members, name) <==>
      Named(members[..|members| - 1], name) || members[|members| - 1].name == name
  {
    var front := members[..|members| - 1];
    if Named(front, name) {
      var i :| 0 <= i < |front| && front[i].name == name;
      assert members[i].name == name;
    }
  }

  lemma {:induction false} EntriesAreNames(f: Formats, members: seq<Member<string>>, name: string)
    ensures name in Entries(f, members) <==> Named(members, name)
  {
    if members != [] {
      EntriesAreNames(f, members[..|members| - 1], name);
      NamedSnoc(members, name);
    }
  }

  lemma {:induction false} EntriesDescribe(f: Formats, members: seq<Member<string>>, i: nat)
    requires DistinctNames(members) && i < |members|
    ensures members[i].name in Entries(f, members)
    ensures EntryMatches(f, members[i].content, Entries(f, members)[members[i].name])
  {
    if i < |members| - 1 {
      EntriesDescribe(f, members[..|members| - 1], i);
      assert members[i].name != members[|members| - 1].name;
    }
  }

  /* ---- The round trip ---- */

  function AnyName(name: string): bool {
    true
  }

  /** What a directory can hold. */
  const DIRECTORY: Rules<string> := Rules(Plain, AnyName, Clash)

  /** Files as a directory can hold them next to a manifest. */
  predicate FilesOfDirectory(members: seq<Member<string>>) {
    AllFit(DIRECTORY, members, map[MANIFEST := []])
  }

  predicate NoBackslash(name: string) {
    '\\' !in name
  }

  lemma OneComponentIsUsable(name: string, content: Bytes)
    requires '/' !in name && NoBackslash(name) && name != "" && name != "." && name != ".."
    ensures Usable(TAR, Member(name, true, content))
  {
    SplitPlain(name);
    AcceptedNamesArePlain(name);
  }

  lemma PlainIsUsable(m: Member<string>)
    requires Usable(DIRECTORY, m)
    ensures Usable(TAR, m) <==> NoBackslash(m.name)
  {
    PlainIsNoDot(m.name);
    AcceptedNamesArePlain(m.name);
  }

  lemma SameApart(name: string, other: string)
    ensures Apart(DIRECTORY, name, other) <==> Apart(TAR, name, other)
    ensures Apart(TAR, name, other) <==> Apart(TAR, other, name)
  {
    ClashIsSymmetric(name, other);
  }

  lemma FilesFitArchive(members: seq<Member<string>>, m: Member<string>)
    requires AllFit(DIRECTORY, members, map[m.name := []]) && Usable(TAR, m)
    ensures AllFit(TAR, members + [m], map[]) <==> forall i | 0 <= i < |members| :: NoBackslash(members[i].name)
  {
    FitOneMore(TAR, members, m);
    var there: map<string, Bytes> := map[m.name := []];
    assert m.name in there;
    forall i | 0 <= i < |members| ensures Apart(TAR, m.name, members[i].name) {
      assert Apart(DIRECTORY, members[i].name, m.name);
      SameApart(members[i].name, m.name);
    }
    forall i | 0 <= i < |members| ensures Usable(TAR, members[i]) <==> NoBackslash(members[i].name) {
      PlainIsUsable(members[i]);
    }
    forall i, j | 0 <= i < j < |members| ensures Apart(TAR, members[j].name, members[i].name) {
      SameApart(members[j].name, members[i].name);
    }
  }

  /** A tree of distinct files and a manifest of them, under a name none of them has. */
  lemma EntriesDescribeTree(f: Formats, members: seq<Member<string>>, content: Bytes, tree: Tree)
    requires DistinctNames(members) && !Named(members, MANIFEST)
    requires tree == With(members + [Member(MANIFEST, true, content)], map[])
    ensures forall name :: name in tree <==> name == MANIFEST || Named(members, name)
    ensures forall i | 0 <= i < |members| :: members[i].name in tree && tree[members[i].name] == members[i].content
    ensures tree[MANIFEST] == content && Describes(f, Manifest(1, Entries(f, members)), tree)
  {
    var all := members + [Member(MANIFEST, true, content)];
    assert all[|members|].name == MANIFEST && all[..|members|] == members;
    WithHolds(all, map[]);
    forall name ensures name in tree <==> name == MANIFEST || Named(members, name) {
      NamedSnoc(all, name);
    }
    forall i | 0 <= i < |members| ensures members[i].name in tree && tree[members[i].name] == members[i].content {
      assert all[i] == members[i];
    }
    var entries := Entries(f, members);
    forall name ensures name in entries <==> Named(members, name) {
      EntriesAreNames(f, members, name);
    }
    assert entries.Keys == tree.Keys - {MANIFEST};
    forall name | name in entries ensures EntryMatches(f, tree[name], entries[name]) {
      var i :| 0 <= i < |members| && members[i].name == name;
      EntriesDescribe(f, members, i);
    }
  }

  lemma ArchiveIsAccepted(f: Formats, members: seq<Member<string>>, content: Bytes, all: seq<Member<string>>)
    requires all == members + [Member(MANIFEST, true, content)] && AllFit(TAR, all, map[])
    requires DistinctNames(members) && !Named(members, MANIFEST)
    requires f.load(content) == Some(Manifest(1, Entries(f, members))) && |members| < MAX_MEMBERS
    ensures Unpacked(f, all, map[]) == Ok(With(all, map[]))
  {
    EntriesDescribeTree(f, members, content, With(all, map[]));
    AcceptedArchives(f, all, With(all, map[]));
  }

  lemma OnlyFittingArchives(f: Formats, all: seq<Member<string>>)
    requires Unpacked(f, all, map[]).Ok?
    ensures |all| <= MAX_MEMBERS && AllFit(TAR, all, map[])
  {
    AcceptedArchives(f, all, Unpacked(f, all, map[]).value);
  }

  /** The archive of a directory is accepted exactly if it is small enough and no name contains a backslash. */
  lemma AcceptedIff(f: Formats, members: seq<Member<string>>, content: Bytes, all: seq<Member<string>>)
    requires all == members + [Member(MANIFEST, true, content)] && FilesOfDirectory(members)
    requires DistinctNames(members) && !Named(members, MANIFEST)
    requires f.load(content) == Some(Manifest(1, Entries(f, members)))
    ensures Unpacked(f, all, map[]).Ok? <==> |members| < MAX_MEMBERS && forall i | 0 <= i < |members| :: NoBackslash(members[i].name)
    ensures Unpacked(f, all, map[]).Ok? ==> Unpacked(f, all, map[]).value == With(all, map[])
  {
    OneComponentIsUsable(MANIFEST, content);
    FilesFitArchive(members, Member(MANIFEST, true, content));
    if |members| < MAX_MEMBERS && AllFit(TAR, all, map[]) {
      ArchiveIsAccepted(f, members, content, all);
    }
    if Unpacked(f, all, map[]).Ok? {
      OnlyFittingArchives(f, all);
    }
  }

  lemma FilesOfDirectoryAreDistinct(members: seq<Member<string>>)
    requires FilesOfDirectory(members)
    ensures DistinctNames(members) && !Named(members, MANIFEST)
  {
    var there: map<string, Bytes> := map[MANIFEST := []];
    FitIsDistinct(DIRECTORY, members, there);
    assert MANIFEST in there;
    forall i | 0 <= i < |members| ensures members[i].name != MANIFEST {
      assert Apart(DIRECTORY, members[i].name, MANIFEST);
    }
  }

  /** The same names with the same contents, and the manifest. */
  ghost predicate Restores(members: seq<Member<string>>, tree: Tree) {
    && (forall name :: name in tree <==> name == MANIFEST || Named(members, name))
    && (forall i | 0 <= i < |members| :: members[i].name in tree && tree[members[i].name] == members[i].content)
  }

  /** Packing a directory and unpacking the archive gives back its files and the manifest, exactly if there are
      fewer than a million files and no name contains a backslash; otherwise the archive is refused. */
  lemma RoundTrip(f: Formats, items: seq<Item>)
    requires f.Valid() && Packed(f, items).Ok? && FilesOfDirectory(FilesOf(items))
    ensures var members, r := FilesOf(items), Unpacked(f, Packed(f, items).value, map[]);
      && (r.Ok? <==> |members| < MAX_MEMBERS && forall i | 0 <= i < |members| :: NoBackslash(members[i].name))
      && (r.Ok? ==> Restores(members, r.value))
  {
    var members := FilesOf(items);
    var manifest := Manifest(1, Entries(f, members));
    var content := f.dump(manifest);
    var all := Archive(f, members);
    assert f.load(content) == Some(manifest);
    FilesOfDirectoryAreDistinct(members);
    AcceptedIff(f, members, content, all);
    EntriesDescribeTree(f, members, content, With(all, map[]));
  }

  lemma OneFileRefused(f: Formats, name: string, content: Bytes)
    requires '/' !in name && '\\' in name && name != MANIFEST && !Clash(name, MANIFEST)
    ensures var items := [File(name, content)];
      && Packed(f, items).Ok? && FilesOfDirectory(FilesOf(items))
      && Unpacked(f, Packed(f, items).value, map[]) == Err(UnsafeMember)
  {
    var items, m := [File(name, content)], Member(name, true, content);
    assert items[..0] == [] && FilesOf([]) == [];
    assert FilesOf(items) == [m];
    SplitPlain(name);
    assert !NameAccepted(name);
    var all := Archive(f, [m]);
    assert all[0] == m && !TAR.accepted(m.name);
    assert Stage(TAR, all, map[]) == Err(UnsafeMember);
  }

  /** A directory with one file whose name contains a backslash: backed up without complaint, refused at
      restoration. */
  lemma BackslashIsRefused(f: Formats, content: Bytes)
    ensures var items := [File("a\\b", content)];
      && Packed(f, items).Ok? && FilesOfDirectory(FilesOf(items))
      && Unpacked(f, Packed(f, items).value, map[]) == Err(UnsafeMember)
  {
    var name := "a\\b";
    assert name[0] == 'a' && name[1] == '\\' && MANIFEST[0] == 'm';
    assert (name + "/")[0] == 'a' && (MANIFEST + "/")[0] == 'm';
    OneFileRefused(f, name, content);
  }
}
