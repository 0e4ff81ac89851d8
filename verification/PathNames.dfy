/** Names of archive members (the path tests of unpack_verified in backend/investigation/backup.py). */
module PathNames {

  /** The components between slashes, empty ones included. */
  function Split(name: string): (parts: seq<string>)
    ensures |parts| >= 1
  {
    if name == "" then [""]
    else
      var rest := Split(name[1..]);
      if name[0] == '/' then [""] + rest else [[name[0]] + rest[0]] + rest[1..]
  }

  function Join(parts: seq<string>): string {
    if parts == [] then "" else if |parts| == 1 then parts[0] else parts[0] + "/" + Join(parts[1..])
  }

  predicate Drops(part: string) {
    part == "" || part == "."
  }

  /** The parts of a path object, which forgets empty components and single dots. */
  function PathParts(parts: seq<string>): seq<string> {
    if parts == [] then []
    else (if Drops(parts[0]) then [] else [parts[0]]) + PathParts(parts[1..])
  }

  /** The text of a relative path object. */
  function AsPosix(name: string): string {
    var parts := PathParts(Split(name));
    if parts == [] then "." else Join(parts)
  }

  /** The test unpack_verified applies to one member's name. */
  predicate NameAccepted(name: string) {
    && !(name != "" && name[0] == '/')
    && ".." !in PathParts(Split(name))
    && '\\' !in name
    && AsPosix(name) == name
  }

  /** What the test amounts to: every component names an entry of its directory. */
  predicate Plain(name: string) {
    forall part | part in Split(name) :: part != "" && part != "." && part != ".."
  }

  lemma {:induction false} JoinSplit(name: string)
    ensures Join(Split(name)) == name
  {
    if name != "" {
      JoinSplit(name[1..]);
      var rest := Split(name[1..]);
      assert name == [name[0]] + name[1..];
      if name[0] == '/' {
        assert ([""] + rest)[1..] == rest;
      } else {
        assert ([[name[0]] + rest[0]] + rest[1..])[1..] == rest[1..];
      }
    }
  }

  lemma JoinLength(head: string, tail: seq<string>)
    ensures |Join([head] + tail)| == |head| + if tail == [] then 0 else 1 + |Join(tail)|
  {
    assert ([head] + tail)[1..] == tail;
  }

  lemma {:induction false} DroppingShortens(parts: seq<string>)
    requires parts != []
    ensures PathParts(parts) == [] || |Join(PathParts(parts))| <= |Join(parts)|
    ensures (exists part | part in parts :: Drops(part)) && PathParts(parts) != [] ==>
      |Join(PathParts(parts))| < |Join(parts)|
    ensures (forall part | part in parts :: !Drops(part)) ==> PathParts(parts) == parts
  {
    var head, tail := parts[0], parts[1..];
    var kept := PathParts(tail);
    assert parts == [head] + tail;
    JoinLength(head, tail);
    JoinLength(head, kept);
    assert PathParts(parts) == if Drops(head) then kept else [head] + kept;
    if tail == [] {
      assert kept == [];
    } else {
      DroppingShortens(tail);
    }
  }

  /** Accepted are exactly the plain names without a backslash, and the single dot, which no file can be
      created at. */
  lemma AcceptedNamesArePlain(name: string)
    ensures NameAccepted(name) <==> (Plain(name) && '\\' !in name) || name == "."
  {
    var parts := Split(name);
    JoinSplit(name);
    DroppingShortens(parts);
    SplitDot();
    StartsWithSlash(name);
    if Plain(name) {
      assert PathParts(parts) == parts;
    }
    if NameAccepted(name) && name != "." {
      assert PathParts(parts) != [];
      assert forall part | part in parts :: !Drops(part);
      assert PathParts(parts) == parts;
    }
  }

  lemma SplitOne(c: char)
    requires c != '/'
    ensures Split([c]) == [[c]]
  {
    var rest: seq<string> := [""];
    assert [c][1..] == "" && Split([c][1..]) == rest;
    assert [c] + rest[0] == [c] && [[c]] + rest[1..] == [[c]];
  }

  lemma SplitDot()
    ensures Split(".") == ["."] && NameAccepted(".")
  {
    SplitOne('.');
    assert PathParts(["."][1..]) == [];
    assert PathParts(["."]) == [];
  }

  lemma StartsWithSlash(name: string)
    ensures name != "" && name[0] == '/' ==> "" in Split(name)
  {
  }

  lemma {:induction false} SplitPlain(name: string)
    requires '/' !in name
    ensures Split(name) == [name]
  {
    if name != "" {
      SplitPlain(name[1..]);
      assert name == [name[0]] + name[1..];
      assert [name] + [name[1..]][1..] == [name];
    }
  }

  lemma PlainIsNoDot(name: string)
    ensures Plain(name) ==> name != "."
  {
    SplitDot();
    assert "." in Split(".");
  }

  lemma ClashIsSymmetric(a: string, b: string)
    ensures Clash(a, b) <==> Clash(b, a)
  {
  }

  /** One of the two files would have to be a directory at the same time. */
  predicate Clash(a: string, b: string) {
    a == b || a + "/" <= b || b + "/" <= a
  }
}
