/** The parser for the make rule a GCC-compatible compiler prints in
    dependency mode (`-MM -MT ""`): ": a.cpp b.h dir/with\ space.h \
    more.h\n". It is modelled exactly as written, including its sharp
    edges: an escaped backslash is dropped instead of kept, a newline pushes
    the pending name even when it is empty, and nothing after the first
    unescaped newline is read. */
module MakeRule {

  const Escape: char := '\\'
  const Delimiter: char := ' '
  const Newline: char := '\n'

  /** The parser's result for the characters `s` still to be read, given its
      state before them: whether the previous character was an escape,
      whether it is between names (`delimiting`), the name read so far and
      the names already pushed. */
  function Scan(s: string, escaping: bool, delimiting: bool, pending: string, names: seq<string>): (r: seq<string>)
    ensures |r| >= |names| && r[..|names|] == names
    decreases |s|
  {
    if s == [] then
      if |pending| > 0 then names + [pending] else names
    else
      var c := s[0];
      if c == Escape then
        Scan(s[1..], true, delimiting, pending, names)
      else if escaping then
        Scan(s[1..], false, delimiting, if c == Delimiter then pending + [c] else pending, names)
      else if c == Newline then
        names + [pending]
      else if c == Delimiter then
        if delimiting then Scan(s[1..], false, true, pending, names)
        else Scan(s[1..], false, true, [], names + [pending])
      else
        Scan(s[1..], false, false, pending + [c], names)
  }

  /** The prerequisites of a rule: its first character (the colon left by
      the empty target) is skipped, then the rest is scanned. The source
      advances past the first character unconditionally, so an empty rule is
      outside its domain. No name it yields holds a backslash, so the branch
      meant to keep an escaped backslash never runs. */
  function RulePrerequisites(rule: string): (r: seq<string>)
    requires |rule| >= 1
    ensures forall k :: 0 <= k < |r| ==> NoEscape(r[k])
  {
    ScanHasNoEscapes(rule[1..], false, true, [], []);
    Scan(rule[1..], false, true, [], [])
  }

  /** The parsing loop as written. The dead branch that was meant to keep an
      escaped escape character is present and proved unreachable. */
  method ParseMakeRule(rule: string) returns (prerequisites: seq<string>)
    requires |rule| >= 1
    ensures prerequisites == RulePrerequisites(rule)
  {
    prerequisites := [];
    var prerequisite: string := [];
    var escaping := false;
    var delimiting := true;
    var i := 1;
    while i < |rule|
      invariant 1 <= i <= |rule|
      invariant Scan(rule[i..], escaping, delimiting, prerequisite, prerequisites) == RulePrerequisites(rule)
    {
      var c := rule[i];
      assert rule[i..][0] == c && rule[i..][1..] == rule[i + 1..];
      if c == Escape {
        escaping := true;
      } else if escaping {
        escaping := false;
        if c == Escape {
          assert false;  // the first test above has already consumed every escape character
        } else if c == Delimiter {
          prerequisite := prerequisite + [c];
        }
      } else if c == Newline {
        prerequisites := prerequisites + [prerequisite];
        prerequisite := [];
        break;
      } else if c == Delimiter {
        if !delimiting {
          prerequisites := prerequisites + [prerequisite];
          prerequisite := [];
          delimiting := true;
        }
      } else {
        delimiting := false;
        prerequisite := prerequisite + [c];
      }
      i := i + 1;
    }
    if |prerequisite| > 0 {
      prerequisites := prerequisites + [prerequisite];
    }
  }

  // ---------------------------------------------------------------------
  // What the parser guarantees about the names it returns

  predicate NoEscape(name: string) { forall j :: 0 <= j < |name| ==> name[j] != Escape }

  /** No name ever holds a backslash: a backslash only arms escaping, and an
      escaped backslash merely re-arms it. */
  lemma {:induction false} ScanHasNoEscapes(s: string, escaping: bool, delimiting: bool, pending: string, names: seq<string>)
    requires NoEscape(pending)
    requires forall k :: 0 <= k < |names| ==> NoEscape(names[k])
    ensures forall k :: 0 <= k < |Scan(s, escaping, delimiting, pending, names)| ==> NoEscape(Scan(s, escaping, delimiting, pending, names)[k])
    decreases |s|
  {
    if s != [] {
      var c := s[0];
      if c == Escape {
        ScanHasNoEscapes(s[1..], true, delimiting, pending, names);
      } else if escaping {
        ScanHasNoEscapes(s[1..], false, delimiting, if c == Delimiter then pending + [c] else pending, names);
      } else if c == Newline {
      } else if c == Delimiter {
        if delimiting {
          ScanHasNoEscapes(s[1..], false, true, pending, names);
        } else {
          ScanHasNoEscapes(s[1..], false, true, [], names + [pending]);
        }
      } else {
        ScanHasNoEscapes(s[1..], false, false, pending + [c], names);
      }
    }
  }

  /** An escaped backslash followed by any character behaves as a single
      backslash followed by that character: that character is then kept only
      if it is a space. So "\\x" loses both the backslashes and the x. */
  lemma {:induction false} EscapedEscapeDropsNext(c: char, s: string, escaping: bool, delimiting: bool, pending: string, names: seq<string>)
    requires c != Escape
    ensures Scan([Escape, Escape, c] + s, escaping, delimiting, pending, names)
         == Scan(s, false, delimiting, if c == Delimiter then pending + [c] else pending, names)
  {
    var t := [Escape, Escape, c] + s;
    assert t[0] == Escape && t[1..] == [Escape, c] + s;
    assert ([Escape, c] + s)[0] == Escape && ([Escape, c] + s)[1..] == [c] + s;
    assert ([c] + s)[0] == c && ([c] + s)[1..] == s;
    calc {
      Scan(t, escaping, delimiting, pending, names);
      Scan([Escape, c] + s, true, delimiting, pending, names);
      Scan([c] + s, true, delimiting, pending, names);
    }
  }

  /** Runs of unescaped spaces never push an empty name: the only empty name
      there can be is the last one, pushed by a newline. A rule with no
      newline yields no empty name at all. */
  lemma {:induction false} ScanPushesEmptyOnlyAtNewline(s: string, escaping: bool, delimiting: bool, pending: string, names: seq<string>)
    requires !delimiting ==> |pending| > 0
    requires forall k :: 0 <= k < |names| ==> |names[k]| > 0
    ensures forall k :: 0 <= k < |Scan(s, escaping, delimiting, pending, names)| - 1 ==> |Scan(s, escaping, delimiting, pending, names)[k]| > 0
    ensures Newline !in s ==> forall k :: 0 <= k < |Scan(s, escaping, delimiting, pending, names)| ==> |Scan(s, escaping, delimiting, pending, names)[k]| > 0
    decreases |s|
  {
    if s != [] {
      var c := s[0];
      assert Newline !in s ==> Newline !in s[1..];
      if c == Escape {
        ScanPushesEmptyOnlyAtNewline(s[1..], true, delimiting, pending, names);
      } else if escaping {
        ScanPushesEmptyOnlyAtNewline(s[1..], false, delimiting, if c == Delimiter then pending + [c] else pending, names);
      } else if c == Newline {
      } else if c == Delimiter {
        if delimiting {
          ScanPushesEmptyOnlyAtNewline(s[1..], false, true, pending, names);
        } else {
          ScanPushesEmptyOnlyAtNewline(s[1..], false, true, [], names + [pending]);
        }
      } else {
        ScanPushesEmptyOnlyAtNewline(s[1..], false, false, pending + [c], names);
      }
    }
  }

  lemma OnlyLastPrerequisiteMayBeEmpty(rule: string)
    requires |rule| >= 1
    ensures forall k :: 0 <= k < |RulePrerequisites(rule)| - 1 ==> |RulePrerequisites(rule)[k]| > 0
    ensures Newline !in rule ==> forall k :: 0 <= k < |RulePrerequisites(rule)| ==> |RulePrerequisites(rule)[k]| > 0
  {
    if Newline !in rule {
      forall j | 0 <= j < |rule[1..]| ensures rule[1..][j] != Newline {
        assert rule[1..][j] == rule[j + 1];
      }
    }
    ScanPushesEmptyOnlyAtNewline(rule[1..], false, true, [], []);
  }

  /** A space before the terminating newline makes the newline push an
      empty name. */
  lemma TrailingSpacePushesEmptyName()
    ensures RulePrerequisites(": a \n") == ["a", ""]
  {
    var r := ": a \n";
    assert r[1..] == " a \n";
    assert " a \n"[1..] == "a \n";
    assert "a \n"[1..] == " \n";
    assert " \n"[1..] == "\n";
    assert [] + ['a'] == "a";
    calc {
      RulePrerequisites(r);
      Scan(" a \n", false, true, [], []);
      Scan("a \n", false, true, [], []);
      Scan(" \n", false, false, "a", []);
      Scan("\n", false, true, [], ["a"]);
      ["a", ""];
    }
  }

  /** An escaped space is added to the name without leaving the
      "between names" state, so an unescaped space right after an escaped
      one at the start of a name does not end that name: the two names run
      together. */
  lemma EscapedSpaceKeepsDelimiting(s: string, pending: string, names: seq<string>)
    ensures Scan([Escape, Delimiter, Delimiter] + s, false, true, pending, names)
         == Scan(s, false, true, pending + [Delimiter], names)
  {
    var t := [Escape, Delimiter, Delimiter] + s;
    assert t[1..] == [Delimiter, Delimiter] + s;
    assert t[1..][1..] == [Delimiter] + s;
    assert t[1..][1..][1..] == s;
    calc {
      Scan(t, false, true, pending, names);
      Scan(t[1..], true, true, pending, names);
      Scan(t[1..][1..], false, true, pending + [Delimiter], names);
      Scan(t[1..][1..][1..], false, true, pending + [Delimiter], names);
    }
  }

  /** Every newline in `s` is escaped: the character before it is a
      backslash, or, for a newline at the very start, the parser is already
      escaping. Such newlines are the line continuations of a rule that
      spans several lines. */
  predicate NewlinesEscaped(s: string, escaping: bool)
  {
    forall j {:trigger s[j]} :: 0 <= j < |s| && s[j] == Newline ==> if j == 0 then escaping else s[j - 1] == Escape
  }

  /** After the first character, the parser is escaping exactly when that
      character was a backslash, so the rest keeps its newlines escaped. */
  lemma NewlinesEscapedTail(s: string, escaping: bool)
    requires s != [] && NewlinesEscaped(s, escaping)
    ensures NewlinesEscaped(s[1..], s[0] == Escape)
  {
    forall j | 0 <= j < |s[1..]| && s[1..][j] == Newline
      ensures if j == 0 then s[0] == Escape else s[1..][j - 1] == Escape
    {
      assert s[1..][j] == s[j + 1];
      if j > 0 {
        assert s[1..][j - 1] == s[j];
      }
    }
  }

  /** Once the parser reaches an unescaped newline it stops: whatever
      follows is never read. Escaped newlines before it (continuation lines)
      are read past. */
  lemma {:induction false} StopsAtFirstNewline(pre: string, post: string, escaping: bool, delimiting: bool, pending: string, names: seq<string>)
    requires NewlinesEscaped(pre, escaping)
    requires !(if pre == [] then escaping else pre[|pre| - 1] == Escape)
    ensures Scan(pre + [Newline] + post, escaping, delimiting, pending, names)
         == Scan(pre + [Newline], escaping, delimiting, pending, names)
    decreases |pre|
  {
    var long, short := pre + [Newline] + post, pre + [Newline];
    if pre == [] {
      assert long[0] == Newline && short[0] == Newline;
    } else {
      var c := pre[0];
      assert long[0] == c && short[0] == c;
      assert long[1..] == pre[1..] + [Newline] + post;
      assert short[1..] == pre[1..] + [Newline];
      NewlinesEscapedTail(pre, escaping);
      if c == Escape {
        StopsAtFirstNewline(pre[1..], post, true, delimiting, pending, names);
      } else if escaping {
        StopsAtFirstNewline(pre[1..], post, false, delimiting, if c == Delimiter then pending + [c] else pending, names);
      } else if c == Delimiter {
        if delimiting {
          StopsAtFirstNewline(pre[1..], post, false, true, pending, names);
        } else {
          StopsAtFirstNewline(pre[1..], post, false, true, [], names + [pending]);
        }
      } else {
        assert c != Newline;  // an unescaped newline cannot come first
        StopsAtFirstNewline(pre[1..], post, false, false, pending + [c], names);
      }
    }
  }

  /** A rule whose last character is its first unescaped newline (earlier
      newlines all escaped) has the same prerequisites whatever text is
      appended after it. */
  lemma IgnoresTextAfterNewline(rule: string, post: string)
    requires |rule| >= 2 && rule[|rule| - 1] == Newline
    requires NewlinesEscaped(rule[1..|rule| - 1], false)
    requires rule[|rule| - 2] != Escape || |rule| == 2
    ensures RulePrerequisites(rule + post) == RulePrerequisites(rule)
  {
    var pre := rule[1..|rule| - 1];
    assert rule[1..] == pre + [Newline];
    assert (rule + post)[1..] == pre + [Newline] + post;
    StopsAtFirstNewline(pre, post, false, true, [], []);
  }

  /** The first line of the two-line rule below: "a.h" is pushed, and the
      escaped newline and the indentation after it are read past. */
  lemma FirstLineOfContinuation(t: string, rest: string)
    requires t == " a.h \\\n" + rest
    ensures Scan(t, false, true, [], []) == Scan(rest, false, true, [], ["a.h"])
  {
    assert t[1..] == "a.h \\\n" + rest;
    assert t[2..] == ".h \\\n" + rest;
    assert t[3..] == "h \\\n" + rest;
    assert t[4..] == " \\\n" + rest;
    assert t[5..] == "\\\n" + rest;
    assert t[6..] == "\n" + rest;
    assert t[7..] == rest;
    assert [] + "a" == "a" && "a" + "." == "a." && "a." + "h" == "a.h";
    assert [] + ["a.h"] == ["a.h"];
    calc {
      Scan(t, false, true, [], []);
      Scan(t[1..], false, true, [], []);
      Scan(t[2..], false, false, "a", []);
      Scan(t[3..], false, false, "a.", []);
      Scan(t[4..], false, false, "a.h", []);
      Scan(t[5..], false, true, [], ["a.h"]);
      Scan(t[6..], true, true, [], ["a.h"]);
      Scan(t[7..], false, true, [], ["a.h"]);
    }
  }

  /** The second line: "b.h" and the newline that ends the rule. */
  lemma SecondLineOfContinuation(t: string)
    requires t == " b.h\n"
    ensures Scan(t, false, true, [], ["a.h"]) == ["a.h", "b.h"]
  {
    assert t[1..] == "b.h\n";
    assert t[2..] == ".h\n";
    assert t[3..] == "h\n";
    assert t[4..] == "\n";
    assert [] + "b" == "b" && "b" + "." == "b." && "b." + "h" == "b.h";
    calc {
      Scan(t, false, true, [], ["a.h"]);
      Scan(t[1..], false, true, [], ["a.h"]);
      Scan(t[2..], false, false, "b", ["a.h"]);
      Scan(t[3..], false, false, "b.", ["a.h"]);
      Scan(t[4..], false, false, "b.h", ["a.h"]);
      ["a.h", "b.h"];
    }
  }

  /** A rule GCC splits over two lines: the escaped newline is read past,
      both names are found, and only the final newline ends the rule. */
  lemma ContinuationLineExample(rule: string, post: string)
    requires rule == ": a.h \\\n b.h\n"
    ensures RulePrerequisites(rule) == ["a.h", "b.h"]
    ensures RulePrerequisites(rule + post) == RulePrerequisites(rule)
  {
    var pre := rule[1..|rule| - 1];
    assert pre == " a.h \\\n b.h";
    assert forall j :: 0 <= j < |pre| && pre[j] == Newline ==> j == 6;
    IgnoresTextAfterNewline(rule, post);
    assert rule[1..] == " a.h \\\n" + " b.h\n";
    FirstLineOfContinuation(rule[1..], " b.h\n");
    SecondLineOfContinuation(" b.h\n");
  }

  // ---------------------------------------------------------------------
  // Round trip: the rule a compiler prints for a list of names

  predicate AllDelimiters(name: string) { forall j :: 0 <= j < |name| ==> name[j] == Delimiter }

  /** A name the rule format can carry: non-empty, not made of spaces only,
      and free of backslashes and newlines. */
  predicate Printable(name: string)
  {
    name != [] && !AllDelimiters(name) && NoEscape(name) && Newline !in name
  }

  /** A name as the compiler prints it: every space escaped. */
  function EscapeName(name: string): (e: string)
    ensures |e| >= |name|
  {
    if name == [] then []
    else (if name[0] == Delimiter then [Escape, Delimiter] else [name[0]]) + EscapeName(name[1..])
  }

  function JoinEscaped(names: seq<string>): string
    requires names != []
  {
    if |names| == 1 then EscapeName(names[0])
    else EscapeName(names[0]) + [Delimiter] + JoinEscaped(names[1..])
  }

  /** The rule for `names` with an empty target: a colon, the escaped names
      separated by single spaces, and a newline. */
  function RuleText(names: seq<string>): string
    requires names != []
  {
    [':'] + JoinEscaped(names) + [Newline]
  }

  lemma {:induction false} ScanEscapedName(name: string, rest: string, delimiting: bool, pending: string, names: seq<string>)
    requires NoEscape(name) && Newline !in name
    ensures Scan(EscapeName(name) + rest, false, delimiting, pending, names)
         == Scan(rest, false, delimiting && AllDelimiters(name), pending + name, names)
    decreases |name|
  {
    if name == [] {
      assert EscapeName(name) + rest == rest;
      assert pending + name == pending;
    } else {
      var c := name[0];
      var tail := EscapeName(name[1..]) + rest;
      assert AllDelimiters(name) == (c == Delimiter && AllDelimiters(name[1..]));
      assert pending + name == (pending + [c]) + name[1..];
      if c == Delimiter {
        var t := [Escape, Delimiter] + tail;
        assert EscapeName(name) + rest == t;
        assert t[0] == Escape && t[1..] == [Delimiter] + tail;
        assert ([Delimiter] + tail)[0] == Delimiter && ([Delimiter] + tail)[1..] == tail;
      } else {
        var t := [c] + tail;
        assert EscapeName(name) + rest == t;
        assert t[0] == c && t[1..] == tail;
        assert c != Escape && c != Newline;
      }
      ScanEscapedName(name[1..], rest, if c == Delimiter then delimiting else false, pending + [c], names);
    }
  }

  /** A tail that ends the last name: whatever name is pending is pushed and
      nothing more. A newline (with anything after it) is one; so is an
      escaped newline at the very end of the output. */
  ghost predicate Terminator(tail: string)
  {
    forall pending: string, done: seq<string> ::
      |pending| > 0 ==> Scan(tail, false, false, pending, done) == done + [pending]
  }

  lemma NewlineTerminates(post: string)
    ensures Terminator([Newline] + post)
  {
    assert ([Newline] + post)[0] == Newline;
  }

  lemma ContinuationAtEndTerminates()
    ensures Terminator([Escape, Newline])
  {
    var t := [Escape, Newline];
    assert t[0] == Escape && t[1..] == [Newline];
    assert [Newline][0] == Newline && [Newline][1..] == [];
    forall pending: string, done: seq<string> | |pending| > 0
      ensures Scan(t, false, false, pending, done) == done + [pending]
    {
      calc {
        Scan(t, false, false, pending, done);
        Scan([Newline], true, false, pending, done);
        Scan([], false, false, pending, done);
      }
    }
  }

  lemma {:induction false} ScanJoined(names: seq<string>, tail: string, done: seq<string>)
    requires names != []
    requires forall k :: 0 <= k < |names| ==> Printable(names[k])
    requires Terminator(tail)
    ensures Scan(JoinEscaped(names) + tail, false, true, [], done) == done + names
    decreases |names|
  {
    var first := names[0];
    assert Printable(first);
    assert [] + first == first;
    if |names| == 1 {
      ScanEscapedName(first, tail, true, [], done);
      assert Scan(tail, false, false, first, done) == done + [first];
    } else {
      var rest := JoinEscaped(names[1..]) + tail;
      assert JoinEscaped(names) + tail == EscapeName(first) + ([Delimiter] + rest);
      ScanEscapedName(first, [Delimiter] + rest, true, [], done);
      assert ([Delimiter] + rest)[0] == Delimiter && ([Delimiter] + rest)[1..] == rest;
      ScanJoined(names[1..], tail, done + [first]);
      assert done + [first] + names[1..] == done + names;
    }
  }

  /** Names that are printable come back unchanged from the rule that lists
      them, whatever text follows the rule's newline. */
  lemma RoundTrip(names: seq<string>, post: string)
    requires names != []
    requires forall k :: 0 <= k < |names| ==> Printable(names[k])
    ensures RulePrerequisites(RuleText(names) + post) == names
  {
    assert (RuleText(names) + post)[1..] == JoinEscaped(names) + ([Newline] + post);
    NewlineTerminates(post);
    ScanJoined(names, [Newline] + post, []);
    assert [] + names == names;
  }

  /** Escaping distributes over concatenation. */
  lemma {:induction false} EscapeNameAppend(a: string, b: string)
    ensures EscapeName(a + b) == EscapeName(a) + EscapeName(b)
    decreases |a|
  {
    if a == [] {
      assert a + b == b;
    } else {
      assert (a + b)[0] == a[0] && (a + b)[1..] == a[1..] + b;
      EscapeNameAppend(a[1..], b);
    }
  }

  /** A name without spaces is printed as it is. */
  lemma {:induction false} EscapeNameWithoutSpaces(name: string)
    requires forall j :: 0 <= j < |name| ==> name[j] != Delimiter
    ensures EscapeName(name) == name
    decreases |name|
  {
    if name != [] {
      EscapeNameWithoutSpaces(name[1..]);
      assert [name[0]] + name[1..] == name;
    }
  }

  lemma ExampleNamesPrintable()
    ensures forall k :: 0 <= k < 3 ==> Printable(["foo.h", "bar baz.h", "qux.h"][k])
  {
    assert Printable("foo.h") by { assert "foo.h"[0] != Delimiter; }
    assert Printable("bar baz.h") by { assert "bar baz.h"[0] != Delimiter; }
    assert Printable("qux.h") by { assert "qux.h"[0] != Delimiter; }
  }

  /** A name with exactly one space is printed with that space escaped. */
  lemma EscapeOneSpace(a: string, b: string)
    requires forall j :: 0 <= j < |a| ==> a[j] != Delimiter
    requires forall j :: 0 <= j < |b| ==> b[j] != Delimiter
    ensures EscapeName(a + [Delimiter] + b) == a + [Escape, Delimiter] + b
  {
    EscapeNameWithoutSpaces(a);
    EscapeNameWithoutSpaces(b);
    EscapeNameAppend([Delimiter], b);
    EscapeNameAppend(a, [Delimiter] + b);
    assert a + [Delimiter] + b == a + ([Delimiter] + b);
  }

  lemma ExampleNamesEscaped(foo: string, barBaz: string, qux: string)
    requires foo == "foo.h" && barBaz == "bar baz.h" && qux == "qux.h"
    ensures JoinEscaped([foo, barBaz, qux]) == "foo.h bar\\ baz.h qux.h"
  {
    EscapeNameWithoutSpaces(foo);
    EscapeNameWithoutSpaces(qux);
    var bar, baz := "bar", "baz.h";
    assert barBaz == bar + [Delimiter] + baz;
    EscapeOneSpace(bar, baz);
    var names := [foo, barBaz, qux];
    assert names[1..] == [barBaz, qux] && names[1..][1..] == [qux];
    assert JoinEscaped(names[1..][1..]) == qux;
    assert JoinEscaped(names[1..]) == EscapeName(barBaz) + [Delimiter] + qux;
    assert JoinEscaped(names) == foo + [Delimiter] + (EscapeName(barBaz) + [Delimiter] + qux);
  }

  lemma ExampleRuleText(rule: string, foo: string, barBaz: string, qux: string)
    requires rule == " foo.h bar\\ baz.h qux.h\\\n"
    requires foo == "foo.h" && barBaz == "bar baz.h" && qux == "qux.h"
    ensures |rule| >= 1 && rule[1..] == JoinEscaped([foo, barBaz, qux]) + [Escape, Newline]
  {
    ExampleNamesEscaped(foo, barBaz, qux);
  }

  /** A rule that starts with a space instead of a colon, keeps an escaped
      space inside a name, and ends with an escaped newline (a line
      continuation) and no final newline. */
  lemma ContinuationExample(rule: string, foo: string, barBaz: string, qux: string)
    requires rule == " foo.h bar\\ baz.h qux.h\\\n"
    requires foo == "foo.h" && barBaz == "bar baz.h" && qux == "qux.h"
    ensures RulePrerequisites(rule) == [foo, barBaz, qux]
  {
    var names := [foo, barBaz, qux];
    ExampleRuleText(rule, foo, barBaz, qux);
    ExampleNamesPrintable();
    ContinuationAtEndTerminates();
    ScanJoined(names, [Escape, Newline], []);
    assert [] + names == names;
  }
}
