/**
  Printer and parser undo each other. The exact lists of paths that survive are
  characterised: everything the printer escapes survives, and so does a
  carriage return anywhere but at the very end of the last path.
 */
module DepfileRoundTrip {
  import opened Cache
  import opened Depfile
  import Paths

  /** The rule's targets leave the first separator to the rule itself. */
  ghost predicate HeaderOk(targets: seq<Target>)
  {
    '\n' !in Header(targets) && AfterSeparator(Header(targets)) == None
  }

  predicate Clean(path: string) { path != [] && Inert(path) }

  predicate AllClean(files: seq<string>) { forall k :: 0 <= k < |files| ==> Clean(files[k]) }

  predicate EndsInCr(s: string) { s != [] && s[|s| - 1] == '\r' }

  /** The lists that survive being printed and parsed. */
  predicate Printable(files: seq<string>)
  {
    files != [] && AllClean(files) && !EndsInCr(files[|files| - 1])
  }

  // Cutting into lines

  lemma {:induction false} IndexOfFirst(a: string, c: char, rest: string)
    requires c !in a
    ensures IndexOf(a + [c] + rest, c) == |a|
  {
    var s := a + [c] + rest;
    if a == [] {
      assert s[0] == c;
    } else {
      assert s[0] == a[0] && s[1..] == a[1..] + [c] + rest;
      IndexOfFirst(a[1..], c, rest);
    }
  }

  lemma FirstLine(a: string, rest: string)
    requires '\n' !in a
    ensures Lines(a + "\n" + rest) == [StripCr(a)] + Lines(rest)
  {
    var s := a + "\n" + rest;
    IndexOfFirst(a, '\n', rest);
    assert s[..|a|] == a && s[|a| + 1..] == rest;
  }

  lemma {:induction false} LinesHaveNoNewline(s: string)
    ensures forall k :: 0 <= k < |Lines(s)| ==> '\n' !in Lines(s)[k]
    decreases |s|
  {
    if s != [] {
      var k := IndexOf(s, '\n');
      if k < |s| {
        LinesHaveNoNewline(s[k + 1..]);
      } else {
        assert s[..k] == s;
      }
    }
  }

  // What escaping leaves alone

  lemma {:induction false} EscapeKeeps(word: string, c: char)
    requires c != ' ' && c != '#' && c != '$' && c != '\\'
    ensures c in Escape(word) <==> c in word
  {
    if word != [] {
      EscapeKeeps(word[1..], c);
      assert word == [word[0]] + word[1..];
    }
  }

  lemma {:induction false} EscapeAppend(a: string, b: string)
    ensures Escape(a + b) == Escape(a) + Escape(b)
  {
    if a == [] {
      assert a + b == b;
    } else {
      EscapeAppend(a[1..], b);
      assert (a + b)[1..] == a[1..] + b;
      Assoc(EscapeChar(a[0]), Escape(a[1..]), Escape(b));
    }
  }

  /** Text of a path, or what is left of one: nothing the parser gives a meaning to. */
  predicate Inert(word: string) { '\\' !in word && '\t' !in word && '\n' !in word }

  lemma EscapeSnoc(front: string, last: char)
    ensures Escape(front + [last]) == Escape(front) + EscapeChar(last)
  {
    EscapeAppend(front, [last]);
    assert [last][1..] == [];
    assert EscapeChar(last) + [] == EscapeChar(last);
  }

  lemma StripLast(a: string, b: string)
    requires b != []
    ensures (a + b)[|a + b| - 1] == b[|b| - 1]
    ensures StripCr(a + b) == if b[|b| - 1] == '\r' then a + b[..|b| - 1] else a + b
  {
  }

  /** Escaping commutes with dropping a final carriage return, and never ends a word in a tab or backslash. */
  lemma EscapeEnd(lead: string, word: string)
    requires Inert(word) && lead != [] && lead[|lead| - 1] == ' '
    ensures StripCr(lead + Escape(word)) == lead + Escape(StripCr(word))
    ensures var s := lead + Escape(word);
            s[|s| - 1] != '\t' && s[|s| - 1] != '\\'
  {
    if word == [] {
      assert lead + Escape(word) == lead;
    } else {
      var front, last := word[..|word| - 1], word[|word| - 1];
      assert word == front + [last];
      EscapeSnoc(front, last);
      EscapedEnd(lead, Escape(front), last);
      assert StripCr(word) == if last == '\r' then front else word;
    }
  }

  lemma EscapedEnd(lead: string, front: string, last: char)
    requires last != '\\' && last != '\t'
    ensures var s := lead + (front + EscapeChar(last));
            && s[|s| - 1] != '\t' && s[|s| - 1] != '\\'
            && StripCr(s) == if last == '\r' then lead + front else s
  {
    Assoc(lead, front, EscapeChar(last));
    StripLast(lead + front, EscapeChar(last));
    assert lead + front + [] == lead + front;
  }

  lemma InertMinusCr(word: string)
    requires Inert(word)
    ensures Inert(StripCr(word))
  {
  }

  // Splitting what was escaped

  lemma {:induction false} WordsOfEscaped(word: string, rest: string, current: string)
    requires '\\' !in word && '\t' !in word
    ensures Words(Escape(word) + rest, current) == Words(rest, current + word)
  {
    if word == [] {
      assert Escape(word) + rest == rest && current + word == current;
    } else {
      var tail := Escape(word[1..]) + rest;
      assert Escape(word) + rest == EscapeChar(word[0]) + tail by {
        Assoc(EscapeChar(word[0]), Escape(word[1..]), rest);
      }
      EscapedCharIsRead(word[0], tail, current);
      WordsOfEscaped(word[1..], rest, current + [word[0]]);
      assert current + [word[0]] + word[1..] == current + word;
    }
  }

  lemma EscapedCharIsRead(c: char, tail: string, current: string)
    requires c != '\\' && c != '\t'
    ensures Words(EscapeChar(c) + tail, current) == Words(tail, current + [c])
  {
    var s := EscapeChar(c) + tail;
    if |EscapeChar(c)| == 2 {
      assert s[2..] == tail;
    } else {
      assert s[1..] == tail;
    }
  }

  /** Words never hold a backslash, a tab or a character the text did not have, and are never empty. */
  lemma {:induction false} WordsAreClean(value: string, word: string)
    requires '\n' !in value && '\n' !in word && '\\' !in word && '\t' !in word
    ensures Words(value, word).Ok? ==> AllClean(Words(value, word).value)
    decreases |value|
  {
    if value != [] {
      assert forall c :: c in value[1..] ==> c in value;
      if Blank(value[0]) {
        WordsAreClean(value[1..], []);
      } else if value[0] == '\\' || value[0] == '$' {
        if |value| > 1 {
          assert forall c :: c in value[2..] ==> c in value;
          if value[1] == ' ' || value[1] == '#' || value[1] == '$' {
            WordsAreClean(value[2..], word + [value[1]]);
          }
        }
      } else {
        WordsAreClean(value[1..], word + [value[0]]);
      }
    }
  }

  // The body of the rule, as the parser sees it after joining

  /** The rule's prerequisites on one line, the last one possibly cut short. */
  function Body(front: seq<string>, last: string): string
  {
    if front == [] then "  " + Escape(last) else "  " + Escape(front[0]) + " " + Body(front[1..], last)
  }

  /** What follows the first continued line break of a printed rule. */
  function AfterBreak(front: seq<string>, last: string, phony: string): string
  {
    if front == [] then " " + Escape(last) + "\n" + phony
    else " " + Escape(front[0]) + " \\" + "\n" + AfterBreak(front[1..], last, phony)
  }

  lemma TrimTabsKeeps(s: string)
    requires s == [] || s[|s| - 1] != '\t'
    ensures TrimTabs(s) == s
  {
  }

  /** A continued line contributes its text and a blank. */
  lemma ContinuedLine(text: string, rest: seq<string>, continued: bool)
    ensures Joined([text + " \\"] + rest, continued)
            == Put(if continued then " " else "", Put(text + " ", Put("", Joined(rest, true))))
  {
    var line := text + " \\";
    assert ([line] + rest)[1..] == rest;
    assert line[..|line| - 1] == text + " ";
    TrimTabsKeeps(text + " ");
  }

  lemma FinalLine(word: string)
    requires Inert(word)
    ensures LineText(" " + Escape(word)) == (" " + Escape(StripCr(word)), false)
  {
    EscapeEnd(" ", word);
    InertMinusCr(word);
    EscapeEnd(" ", StripCr(word));
    TrimTabsKeeps(" " + Escape(StripCr(word)));
  }

  lemma PutThree(a: string, b: string, c: string, d: string)
    ensures Put(a, Put(b, Put(c, Ok(d)))) == Ok(a + b + c + d)
  {
    Assoc(a, b, c + d);
    Assoc(a + b, c, d);
  }

  lemma LastJoins(last: string, phony: string, after: string)
    requires Inert(last) && Joined(Lines(phony), false) == Ok(after)
    ensures Joined(Lines(" " + Escape(last) + "\n" + phony), true)
            == Ok("  " + Escape(StripCr(StripCr(last))) + "\n" + after)
  {
    var once := StripCr(last);
    EscapeKeeps(last, '\n');
    FirstLine(" " + Escape(last), phony);
    EscapeEnd(" ", last);
    InertMinusCr(last);
    FinalLine(once);
    var rest := Lines(phony);
    assert ([" " + Escape(once)] + rest)[1..] == rest;
    var text := " " + Escape(StripCr(once));
    PutThree(" ", text, "\n", after);
    TwoBlanks(Escape(StripCr(once)));
  }

  lemma TwoBlanks(text: string)
    ensures " " + (" " + text) == "  " + text
  {
  }

  lemma ContinuedJoins(file: string, more: string, joined: string)
    requires Inert(file) && Joined(Lines(more), true) == Ok(joined)
    ensures Joined(Lines(" " + Escape(file) + " \\" + "\n" + more), true) == Ok("  " + Escape(file) + " " + joined)
  {
    var text := " " + Escape(file);
    EscapeKeeps(file, '\n');
    FirstLine(text + " \\", more);
    StripLast(text + " ", "\\");
    Assoc(text, " ", "\\");
    ContinuedLine(text, Lines(more), true);
    PutThree(" ", text + " ", "", joined);
    Assoc(" ", text, " ");
    TwoBlanks(Escape(file));
    assert " " + (text + " ") + "" == " " + (text + " ");
  }

  /** A line ending in a colon stands by itself. */
  lemma RuleLine(line: string, more: string, joined: string)
    requires '\n' !in line && Joined(Lines(more), false) == Ok(joined)
    ensures Joined(Lines(line + ":" + "\n" + more), false) == Ok(line + ":" + "\n" + joined)
  {
    var rule := line + ":";
    StripLast(line, ":");
    FirstLine(rule, more);
    TrimTabsKeeps(rule);
    assert ([rule] + Lines(more))[1..] == Lines(more);
    PutThree("", rule, "\n", joined);
    assert "" + rule == rule;
  }

  /** Joining a printed rule's continued lines gives the body on one line. */
  lemma {:induction false} BodyJoins(front: seq<string>, last: string, phony: string, after: string)
    requires AllClean(front) && Inert(last)
    requires Joined(Lines(phony), false) == Ok(after)
    ensures Joined(Lines(AfterBreak(front, last, phony)), true)
            == Ok(Body(front, StripCr(StripCr(last))) + "\n" + after)
  {
    if front == [] {
      LastJoins(last, phony, after);
    } else {
      BodyJoins(front[1..], last, phony, after);
      var body := Body(front[1..], StripCr(StripCr(last)));
      ContinuedJoins(front[0], AfterBreak(front[1..], last, phony), body + "\n" + after);
      Assoc("  " + Escape(front[0]) + " ", body, "\n" + after);
      Assoc("  " + Escape(front[0]) + " " + body, "\n", after);
      Assoc(body, "\n", after);
    }
  }

  lemma {:induction false} PhonyJoins(files: seq<string>, source: string) returns (after: string)
    requires AllClean(files)
    ensures Joined(Lines(Phony(files, source)), false) == Ok(after)
  {
    if files == [] {
      after := "";
    } else {
      var rest := PhonyJoins(files[1..], source);
      if SamePath(files[0], source) {
        assert Phony(files, source) == Phony(files[1..], source);
        after := rest;
      } else {
        EscapeKeeps(files[0], '\n');
        RuleLine(Escape(files[0]), Phony(files[1..], source), rest);
        Assoc(Escape(files[0]), ":", "\n");
        assert ":" + "\n" == ":\n";
        after := Escape(files[0]) + ":" + "\n" + rest;
      }
    }
  }

  lemma {:induction false} BodyHasNoNewline(front: seq<string>, last: string)
    requires AllClean(front) && Inert(last)
    ensures '\n' !in Body(front, last)
  {
    if front == [] {
      EscapeKeeps(last, '\n');
    } else {
      EscapeKeeps(front[0], '\n');
      BodyHasNoNewline(front[1..], last);
    }
  }

  lemma {:induction false} BodyMinusCr(lead: string, front: seq<string>, last: string)
    requires Inert(last)
    ensures StripCr(lead + Body(front, last)) == lead + Body(front, StripCr(last))
    decreases front
  {
    if front == [] {
      Assoc(lead, "  ", Escape(last));
      EscapeEnd(lead + "  ", last);
      Assoc(lead, "  ", Escape(StripCr(last)));
    } else {
      var first := "  " + Escape(front[0]) + " ";
      Assoc(lead, first, Body(front[1..], last));
      BodyMinusCr(lead + first, front[1..], last);
      Assoc(lead, first, Body(front[1..], StripCr(last)));
    }
  }

  lemma {:induction false} WordsOfBody(front: seq<string>, last: string)
    requires AllClean(front) && Inert(last)
    ensures Words(Body(front, last), []) == Ok(front + Flush(last))
  {
    if front == [] {
      BlanksAreSkipped(Escape(last));
      WordsOfEscaped(last, "", []);
      assert Escape(last) + "" == Escape(last) && [] + last == last;
      assert [] + Flush(last) == Flush(last);
    } else {
      var file, rest := front[0], Body(front[1..], last);
      Assoc("  ", Escape(file), " " + rest);
      Assoc("  " + Escape(file), " ", rest);
      BlanksAreSkipped(Escape(file) + (" " + rest));
      WordsOfEscaped(file, " " + rest, []);
      assert [] + file == file && (" " + rest)[1..] == rest;
      WordsOfBody(front[1..], last);
      assert front == [file] + front[1..];
      Assoc([file], front[1..], Flush(last));
    }
  }

  lemma BlanksAreSkipped(s: string)
    ensures Words("  " + s, []) == Words(s, [])
  {
    assert ("  " + s)[1..] == " " + s && (" " + s)[1..] == s;
    PutAllNothing(Words(s, []));
  }

  // The separator

  lemma {:induction false} SeparatorAfterHeader(header: string, value: string)
    requires AfterSeparator(header) == None
    ensures AfterSeparator(header + ": " + value) == Some(value)
    ensures AfterSeparator(header + ":") == None
  {
    var s := header + ": " + value;
    if header == [] {
      assert s[2..] == value;
    } else {
      assert s[1..] == header[1..] + ": " + value;
      assert (header + ":")[1..] == header[1..] + ":";
      SeparatorAfterHeader(header[1..], value);
      if |header| == 1 {
        assert header[1..] == [];
      }
    }
  }

  // The theorem

  lemma PrintedRule(targets: seq<Target>, front: seq<string>, last: string, source: string, phony: bool)
    ensures var files := front + [last];
            var extra := if phony then Phony(files, source) else "";
            Rendered(targets, files, source, phony)
            == Header(targets) + ": \\" + "\n" + AfterBreak(front, last, extra)
  {
    var files := front + [last];
    var extra := if phony then Phony(files, source) else "";
    ContinuedFiles(front, last, extra);
    Assoc(Header(targets) + ":", Continued(files), "\n");
    Assoc(Header(targets) + ":", Continued(files) + "\n", extra);
    HeaderBreak(Header(targets), AfterBreak(front, last, extra));
  }

  lemma HeaderBreak(header: string, more: string)
    ensures header + ":" + (" \\\n" + more) == header + ": \\" + "\n" + more
  {
  }

  lemma FileBreak(file: string, more: string)
    ensures " \\\n " + file + (" \\\n" + more) == " \\\n" + (" " + file + " \\" + "\n" + more)
    ensures " \\\n " + file + "" + "\n" + more == " \\\n" + (" " + file + "\n" + more)
  {
  }

  lemma {:induction false} ContinuedFiles(front: seq<string>, last: string, extra: string)
    ensures Continued(front + [last]) + "\n" + extra == " \\\n" + AfterBreak(front, last, extra)
  {
    if front == [] {
      assert front + [last] == [last] && [last][1..] == [];
      FileBreak(Escape(last), extra);
    } else {
      assert (front + [last])[1..] == front[1..] + [last];
      ContinuedFiles(front[1..], last, extra);
      var rest := Continued(front[1..] + [last]);
      Assoc(" \\\n " + Escape(front[0]), rest, "\n");
      Assoc(" \\\n " + Escape(front[0]), rest + "\n", extra);
      FileBreak(Escape(front[0]), AfterBreak(front[1..], last, extra));
    }
  }

  /** What parsing a printed list of ordinary paths gives: everything, but for carriage returns at the very end. */
  lemma ParsedPrinted(targets: seq<Target>, front: seq<string>, last: string, source: string, phony: bool)
    requires HeaderOk(targets) && AllClean(front) && Clean(last)
    ensures Parsed(Rendered(targets, front + [last], source, phony))
            == Ok(front + Flush(StripCr(StripCr(StripCr(last)))))
  {
    var files := front + [last];
    var extra := if phony then Phony(files, source) else "";
    var after := "";
    if phony {
      after := PhonyJoins(files, source);
    }
    var twice := StripCr(StripCr(last));
    InertMinusCr(last);
    InertMinusCr(StripCr(last));
    InertMinusCr(twice);
    PrintedRule(targets, front, last, source, phony);
    BodyJoins(front, last, extra, after);
    RuleJoins(Header(targets), AfterBreak(front, last, extra), Body(front, twice), after);
    BodyHasNoNewline(front, twice);
    BodyMinusCr(Header(targets) + ": ", front, twice);
    FirstLine(Header(targets) + ": " + Body(front, twice), after);
    SeparatorAfterHeader(Header(targets), Body(front, StripCr(twice)));
    WordsOfBody(front, StripCr(twice));
    SplittersAgree(Body(front, StripCr(twice)));
  }

  lemma SplittersAgree(value: string)
    ensures Prerequisites(value) == Words(value, [])
  {
    if Plain(value) {
      FieldsAreWords(value, []);
    }
  }

  lemma RuleJoins(header: string, more: string, body: string, after: string)
    requires '\n' !in header && Joined(Lines(more), true) == Ok(body + "\n" + after)
    ensures Joined(Lines(header + ": \\" + "\n" + more), false) == Ok(header + ": " + body + "\n" + after)
  {
    var text := header + ":";
    Assoc(header, ":", " \\");
    Assoc(header, ":", " ");
    assert ":" + " \\" == ": \\" && ":" + " " == ": ";
    StripLast(text + " ", "\\");
    Assoc(text, " ", "\\");
    assert " " + "\\" == " \\";
    FirstLine(text + " \\", more);
    ContinuedLine(text, Lines(more), false);
    PutThree("", text + " ", "", body + "\n" + after);
    assert "" + (text + " ") + "" == text + " ";
    Assoc(header + ": ", body + "\n", after);
    Assoc(header + ": ", body, "\n");
  }

  lemma ParsedEmpty(targets: seq<Target>, source: string, phony: bool)
    requires HeaderOk(targets)
    ensures Parsed(Rendered(targets, [], source, phony)) == Err(NoRule)
  {
    var line := Header(targets) + ":";
    assert Rendered(targets, [], source, phony) == line + "\n" + "";
    RuleLine(Header(targets), "", "");
    FirstLine(line, "");
    StripLast(Header(targets), ":");
    SeparatorAfterHeader(Header(targets), "");
    assert Lines("") == [];
    assert ([line] + [])[1..] == [] && ([line] + [])[0] == line;
    assert FirstRule([line] + []) == None;
  }

  /** Whatever the parser accepts, it returns non-empty paths free of the characters it cannot represent. */
  lemma ParsedIsClean(contents: string)
    ensures Parsed(contents).Ok? ==> AllClean(Parsed(contents).value)
  {
    var joined := Joined(Lines(contents), false);
    if joined.Ok? {
      LinesHaveNoNewline(joined.value);
      RuleHasNoNewline(Lines(joined.value));
      var rule := FirstRule(Lines(joined.value));
      if rule.Some? {
        SplittersAgree(rule.value);
        WordsAreClean(rule.value, []);
      }
    }
  }

  lemma {:induction false} RuleHasNoNewline(lines: seq<string>)
    requires forall k :: 0 <= k < |lines| ==> '\n' !in lines[k]
    ensures FirstRule(lines).Some? ==> '\n' !in FirstRule(lines).value
  {
    if lines != [] {
      SuffixHasNoNewline(lines[0]);
      RuleHasNoNewline(lines[1..]);
    }
  }

  lemma {:induction false} SuffixHasNoNewline(line: string)
    requires '\n' !in line
    ensures AfterSeparator(line).Some? ==> '\n' !in AfterSeparator(line).value
  {
    if |line| >= 2 {
      SuffixHasNoNewline(line[1..]);
    }
  }

  lemma StrippedLast(front: seq<string>, last: string)
    ensures front + Flush(StripCr(StripCr(StripCr(last)))) == front + [last] <==> last != [] && !EndsInCr(last)
  {
    var left := front + Flush(StripCr(StripCr(StripCr(last))));
    if EndsInCr(last) {
      assert |left| == |front| + 1 ==> left[|front|] != (front + [last])[|front|];
    } else if last == [] {
      assert |left| == |front|;
    }
  }

  /**
    Parsing what was printed returns exactly the paths that were printed, with
    or without phony rules, if and only if the list is printable.
   */
  lemma RoundTrip(targets: seq<Target>, files: seq<string>, source: string, phony: bool)
    requires HeaderOk(targets)
    ensures Parsed(Rendered(targets, files, source, phony)) == Ok(files) <==> Printable(files)
  {
    if files == [] {
      ParsedEmpty(targets, source, phony);
    } else if AllClean(files) {
      var front, last := files[..|files| - 1], files[|files| - 1];
      assert files == front + [last];
      ParsedPrinted(targets, front, last, source, phony);
      StrippedLast(front, last);
    } else {
      ParsedIsClean(Rendered(targets, files, source, phony));
    }
  }

  /** A rule for the object itself, which is what a driver writes by default, always has a good header. */
  lemma QuotedTargetIsFine(name: string)
    requires '\n' !in name
    ensures HeaderOk([Target(name, true)])
  {
    EscapeKeeps(name, '\n');
    NoSeparatorInEscaped(name);
  }

  lemma {:induction false} NoSeparatorInEscaped(word: string)
    ensures AfterSeparator(Escape(word)) == None
  {
    if word != [] {
      var tail := Escape(word[1..]);
      NoSeparatorInEscaped(word[1..]);
      var s := Escape(word);
      if |EscapeChar(word[0])| == 2 {
        assert s[1..] == [EscapeChar(word[0])[1]] + tail;
        assert s[1..][1..] == tail;
      } else {
        assert s[1..] == tail;
        if tail != [] {
          assert tail[0] != ' ' by { NoLeadingBlank(word[1..]); }
        }
      }
    }
  }

  lemma NoLeadingBlank(word: string)
    ensures Escape(word) != [] ==> Escape(word)[0] != ' '
  {
  }

  // Targets and phony rules

  function Names(targets: seq<Target>): seq<string>
  {
    seq(|targets|, k requires 0 <= k < |targets| => targets[k].name)
  }

  /** Quoted targets, read as words, are the targets' names in order. */
  lemma {:induction false} HeaderReads(targets: seq<Target>, rest: string)
    requires forall k :: 0 <= k < |targets| ==> targets[k].quoted && Clean(targets[k].name)
    requires targets != []
    ensures Words(Header(targets) + " " + rest, []) == PutAll(Names(targets), Words(rest, []))
    decreases |targets|
  {
    var front, last := targets[..|targets| - 1], targets[|targets| - 1];
    assert Names(targets) == Names(front) + [last.name];
    if |targets| == 1 {
      LastTarget(last.name, rest);
      assert Names(front) + [last.name] == [last.name];
    } else {
      HeaderReads(front, Escape(last.name) + " " + rest);
      LastTarget(last.name, rest);
      assert Header(targets) + " " + rest == Header(front) + " " + (Escape(last.name) + " " + rest);
      PutAllTwice(Names(front), [last.name], Words(rest, []));
    }
  }

  lemma LastTarget(name: string, rest: string)
    requires Clean(name)
    ensures Words(Escape(name) + " " + rest, []) == PutAll([name], Words(rest, []))
  {
    Assoc(Escape(name), " ", rest);
    WordsOfEscaped(name, " " + rest, []);
    assert [] + name == name && (" " + rest)[1..] == rest;
  }

  /** A target that is not quoted is printed as it was given. */
  lemma LiteralTarget(targets: seq<Target>, last: Target)
    requires !last.quoted
    ensures Header(targets + [last]) == (if targets == [] then last.name else Header(targets) + " " + last.name)
  {
    assert (targets + [last])[..|targets|] == targets;
  }

  /** The files that get a phony rule: all but the source, by the components of their paths. */
  function Phonies(files: seq<string>, source: string): seq<string>
  {
    if files == [] then []
    else (if Paths.Components(files[0]) == Paths.Components(source) then [] else [Escape(files[0]) + ":"])
         + Phonies(files[1..], source)
  }

  /** Each of them stands on a line of its own, with nothing after the colon. */
  lemma {:induction false} PhonyRules(files: seq<string>, source: string)
    requires AllClean(files)
    ensures Lines(Phony(files, source)) == Phonies(files, source)
  {
    if files != [] {
      PhonyRules(files[1..], source);
      var rest := Phony(files[1..], source);
      if SamePath(files[0], source) {
        assert "" + rest == rest;
      } else {
        EscapeKeeps(files[0], '\n');
        FirstLine(Escape(files[0]) + ":", rest);
        assert Escape(files[0]) + ":" + "\n" == Escape(files[0]) + ":\n";
      }
    }
  }
}
