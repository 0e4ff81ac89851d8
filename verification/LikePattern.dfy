/** Literal substring search through SQL LIKE (backend/investigation/investigations.py, _pattern). */
module LikePattern {
  import opened Common

  /** str.replace with a one-character needle. */
  function Replace(s: string, needle: char, with: string): string {
    if s == "" then "" else (if s[0] == needle then with else [s[0]]) + Replace(s[1..], needle, with)
  }

  function Replaced(value: string): string {
    Replace(Replace(Replace(value, '\\', "\\\\"), '%', "\\%"), '_', "\\_")
  }

  function Pattern(value: string): string {
    "%" + Replaced(value) + "%"
  }

  /** SQLite folds the case of ASCII letters only. */
  function Fold(c: char): char {
    if 'A' <= c <= 'Z' then c - 'A' + 'a' else c
  }

  /** LIKE with ESCAPE '\' (section 8.5 of ISO/IEC 9075-2): `%` is any run of characters, `_` any one
      character, an escaped character is itself, and a trailing escape matches nothing. */
  predicate Like(pattern: string, text: string)
    decreases |pattern| + |text|
  {
    if pattern == "" then text == ""
    else if pattern[0] == '%' then Like(pattern[1..], text) || (text != "" && Like(pattern, text[1..]))
    else if pattern[0] == '\\' then
      |pattern| > 1 && text != "" && Fold(pattern[1]) == Fold(text[0]) && Like(pattern[2..], text[1..])
    else
      text != "" && (pattern[0] == '_' || Fold(pattern[0]) == Fold(text[0])) && Like(pattern[1..], text[1..])
  }

  /** value occurs in text at offset i, up to ASCII case. */
  ghost predicate OccursAt(value: string, text: string, i: int) {
    0 <= i <= |text| - |value| && forall k | 0 <= k < |value| :: Fold(text[i + k]) == Fold(value[k])
  }

  /** What the three replacements have to amount to: one escape in front of each special character. */
  function Escape(value: string): string {
    if value == "" then ""
    else (if value[0] in "\\%_" then ['\\', value[0]] else [value[0]]) + Escape(value[1..])
  }

  lemma {:induction false} ReplaceAppend(a: string, b: string, needle: char, with: string)
    ensures Replace(a + b, needle, with) == Replace(a, needle, with) + Replace(b, needle, with)
  {
    if a == "" {
      assert a + b == b;
    } else {
      assert (a + b)[1..] == a[1..] + b;
      ReplaceAppend(a[1..], b, needle, with);
    }
  }

  lemma ReplaceShort(a: string, needle: char, with: string)
    requires 1 <= |a| <= 2
    ensures Replace(a, needle, with) ==
      (if a[0] == needle then with else [a[0]]) + (if |a| == 1 then "" else if a[1] == needle then with else [a[1]])
  {
    assert a[1..] == if |a| == 1 then "" else [a[1]];
    assert Replace("", needle, with) == "";
    if |a| == 2 { assert a[1..][1..] == ""; }
  }

  lemma ReplacedAppend(a: string, b: string)
    ensures Replaced(a + b) == Replaced(a) + Replaced(b)
  {
    ReplaceAppend(a, b, '\\', "\\\\");
    var a1, b1 := Replace(a, '\\', "\\\\"), Replace(b, '\\', "\\\\");
    ReplaceAppend(a1, b1, '%', "\\%");
    ReplaceAppend(Replace(a1, '%', "\\%"), Replace(b1, '%', "\\%"), '_', "\\_");
  }

  lemma ReplacedCharacter(c: char)
    ensures Replaced([c]) == if c in "\\%_" then ['\\', c] else [c]
  {
    ReplaceShort([c], '\\', "\\\\");
    var one := Replace([c], '\\', "\\\\");
    ReplaceShort(one, '%', "\\%");
    ReplaceShort(Replace(one, '%', "\\%"), '_', "\\_");
  }

  /** The three ordered replacements equal one escape per character. */
  lemma {:induction false} ReplacementsEscape(value: string)
    ensures Replaced(value) == Escape(value)
  {
    if value != "" {
      assert value == [value[0]] + value[1..];
      ReplacedAppend([value[0]], value[1..]);
      ReplacedCharacter(value[0]);
      ReplacementsEscape(value[1..]);
    }
  }

  lemma {:induction false} PercentMatchesAll(text: string)
    ensures Like("%", text)
  {
    if text == "" {
      assert Like("%"[1..], text);
    } else {
      PercentMatchesAll(text[1..]);
    }
  }

  /** An escaped value followed by `%` matches exactly the texts that begin with it. */
  lemma {:induction false} EscapedPrefix(value: string, text: string)
    ensures Like(Escape(value) + "%", text) <==> OccursAt(value, text, 0)
  {
    if value == "" {
      assert Escape(value) + "%" == "%";
      PercentMatchesAll(text);
    } else {
      var p := Escape(value) + "%";
      if value[0] in "\\%_" {
        assert p[2..] == Escape(value[1..]) + "%" && p[1] == value[0];
      } else {
        assert p[1..] == Escape(value[1..]) + "%" && p[0] == value[0];
      }
      if text != "" {
        EscapedPrefix(value[1..], text[1..]);
        if OccursAt(value, text, 0) {
          forall k | 0 <= k < |value[1..]| ensures Fold(text[1..][k]) == Fold(value[1..][k]) {
            assert Fold(text[0 + (k + 1)]) == Fold(value[k + 1]);
          }
        }
        if Fold(value[0]) == Fold(text[0]) && OccursAt(value[1..], text[1..], 0) {
          forall k | 0 <= k < |value| ensures Fold(text[0 + k]) == Fold(value[k]) {
            if k > 0 { assert Fold(text[1..][0 + (k - 1)]) == Fold(value[1..][k - 1]); }
          }
        }
      }
    }
  }

  /** A leading `%` lets the rest match from any offset. */
  lemma {:induction false} LeadingPercent(pattern: string, text: string)
    ensures Like("%" + pattern, text) <==> exists i :: 0 <= i <= |text| && Like(pattern, text[i..])
    decreases |text|
  {
    assert ("%" + pattern)[1..] == pattern;
    assert text[0..] == text;
    if text != "" {
      LeadingPercent(pattern, text[1..]);
      forall i | 0 <= i <= |text[1..]| ensures text[1..][i..] == text[i + 1..] {}
      if i :| 0 <= i <= |text| && Like(pattern, text[i..]) {
        if i > 0 { assert text[1..][i - 1..] == text[i..]; }
      }
      if i :| 0 <= i <= |text[1..]| && Like(pattern, text[1..][i..]) {
        assert Like(pattern, text[i + 1..]);
      }
    }
  }

  lemma PatternFindsFolded(value: string, text: string)
    ensures Like(Pattern(value), text) <==> exists i :: OccursAt(value, text, i)
  {
    ReplacementsEscape(value);
    var tail := Escape(value) + "%";
    assert Pattern(value) == "%" + tail;
    LeadingPercent(tail, text);
    forall i | 0 <= i <= |text|
      ensures Like(tail, text[i..]) <==> OccursAt(value, text, i)
    {
      EscapedPrefix(value, text[i..]);
      if OccursAt(value, text[i..], 0) {
        forall k | 0 <= k < |value| ensures Fold(text[i + k]) == Fold(value[k]) {
          assert Fold(text[i..][0 + k]) == Fold(value[k]);
        }
      }
      if OccursAt(value, text, i) {
        forall k | 0 <= k < |value| ensures Fold(text[i..][0 + k]) == Fold(value[k]) {
          assert text[i..][k] == text[i + k];
        }
      }
    }
  }

  /** value can be read in text from offset i on, capitals and small letters alike. */
  ghost predicate ContainsAt(value: string, text: string, i: int) {
    0 <= i <= |text| - |value| && forall k | 0 <= k < |value| :: SameLetter(text[i + k], value[k])
  }

  lemma FoldJoinsLetters(a: char, b: char)
    ensures SameLetter(a, b) <==> Fold(a) == Fold(b)
  {
    UpperIsRange(a);
    UpperIsRange(b);
  }

  /** For every search value and every text: the LIKE built from the value holds exactly when the value
      occurs in the text, up to ASCII case, whatever `%`, `_` and backslashes it contains. */
  lemma PatternIsSubstringSearch(value: string, text: string)
    ensures Like(Pattern(value), text) <==> exists i :: ContainsAt(value, text, i)
  {
    PatternFindsFolded(value, text);
    forall i ensures ContainsAt(value, text, i) <==> OccursAt(value, text, i) {
      if 0 <= i <= |text| - |value| {
        forall k | 0 <= k < |value| ensures SameLetter(text[i + k], value[k]) <==> Fold(text[i + k]) == Fold(value[k]) {
          FoldJoinsLetters(text[i + k], value[k]);
        }
      }
    }
  }

  /** Patterns for one character: it matches itself, escaped or not, up to ASCII case, and an underscore any. */
  lemma OneCharacterPatterns(c: char, d: char)
    ensures Like(['\\', c], [d]) <==> SameLetter(c, d)
    ensures c !in "\\%_" ==> (Like([c], [d]) <==> SameLetter(c, d))
    ensures Like("_", [d]) && Like("%", [d])
  {
    FoldJoinsLetters(c, d);
    assert ['\\', c][2..] == "" && [c][1..] == "" && [d][1..] == "" && "_"[1..] == "" && "%"[1..] == "";
    assert Like("", "");
  }

  /** Without its escape an underscore would find what is not there. */
  lemma UnderscoresMustBeEscaped()
    ensures Like("%" + "_" + "%", "x") && !Like(Pattern("_"), "x")
  {
    var bare := "%" + "_" + "%";
    assert bare[1..] == "_%" && "_%"[1..] == "%" && "x"[1..] == "";
    PercentMatchesAll("");
    PatternIsSubstringSearch("_", "x");
    forall i ensures !ContainsAt("_", "x", i) {
      UpperIsRange('_');
      UpperIsRange('x');
    }
  }

  /** The order of the replacements matters: escaping backslashes last would escape the escapes, and
      a search for a percent sign would no longer find one. */
  lemma BackslashesMustComeFirst()
    ensures var late := "%" + Replace(Replace(Replace("%", '%', "\\%"), '_', "\\_"), '\\', "\\\\") + "%";
      !Like(late, "%") && ContainsAt("%", "%", 0)
  {
    assert Replace("%", '%', "\\%") == "\\%" by { ReplaceShort("%", '%', "\\%"); }
    assert Replace("\\%", '_', "\\_") == "\\%" by { ReplaceShort("\\%", '_', "\\_"); }
    assert Replace("\\%", '\\', "\\\\") == "\\\\%" by { ReplaceShort("\\%", '\\', "\\\\"); }
    var late := "%" + "\\\\%" + "%";
    assert late[1..] == "\\\\%%";
    assert !Like("\\\\%%", "%");
    assert !Like(late, "");
  }
}
