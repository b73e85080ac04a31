/**
  What the dependency-list parser makes of any text, described without its
  loops: physical lines form logical ones, the first logical line with a rule in
  it counts, and its prerequisites are runs of letters between blanks.
 */
module DepfileReading {
  import opened Cache
  import opened Depfile

  // Logical lines

  predicate Continues(line: string)
  {
    StripCr(line) != [] && StripCr(line)[|StripCr(line)| - 1] == '\\'
  }

  /** What a physical line says: no carriage return, no backslash, no tabs at its end. */
  function Said(line: string): string
  {
    var s := StripCr(line);
    TrimTabs(if Continues(line) then s[..|s| - 1] else s)
  }

  /** Trimming takes the tabs at the end, and all of them. */
  lemma {:induction false} OnlyTabsGo(s: string)
    ensures TrimTabs(s) <= s && (forall k :: |TrimTabs(s)| <= k < |s| ==> s[k] == '\t')
    ensures TrimTabs(s) != [] ==> TrimTabs(s)[|TrimTabs(s)| - 1] != '\t'
  {
    if s != [] && s[|s| - 1] == '\t' {
      OnlyTabsGo(s[..|s| - 1]);
    }
  }

  /** Continued lines and the one that ends them. */
  ghost predicate Logical(group: seq<string>)
  {
    && group != [] && !Continues(group[|group| - 1])
    && forall k :: 0 <= k < |group| - 1 ==> Continues(group[k])
  }

  /** The lines of a group, one blank between each two. */
  function Spoken(group: seq<string>): string
    requires group != []
  {
    if |group| == 1 then Said(group[0]) else Said(group[0]) + " " + Spoken(group[1..])
  }

  function Flatten(groups: seq<seq<string>>): seq<string>
  {
    if groups == [] then [] else groups[0] + Flatten(groups[1..])
  }

  function Text(groups: seq<seq<string>>): string
    requires forall k :: 0 <= k < |groups| ==> groups[k] != []
  {
    if groups == [] then "" else Spoken(groups[0]) + "\n" + Text(groups[1..])
  }

  /** The lines are these groups and then lines that go on without an end. */
  ghost predicate Layout(lines: seq<string>, groups: seq<seq<string>>, dangling: seq<string>)
  {
    && lines == Flatten(groups) + dangling
    && (forall k :: 0 <= k < |groups| ==> Logical(groups[k]))
    && (forall k :: 0 <= k < |dangling| ==> Continues(dangling[k]))
  }

  lemma OneLine(line: string, rest: seq<string>, continued: bool)
    ensures Joined([line] + rest, continued)
         == Put((if continued then " " else "") + Said(line) + (if Continues(line) then "" else "\n"),
                Joined(rest, Continues(line)))
  {
    assert ([line] + rest)[1..] == rest;
    assert LineText(line) == (Said(line), Continues(line));
    var mark, stop := if continued then " " else "", if Continues(line) then "" else "\n";
    var after := Joined(rest, Continues(line));
    PutTwice(Said(line), stop, after);
    PutTwice(mark, Said(line) + stop, after);
    Assoc(mark, Said(line), stop);
  }

  lemma Regroup(mark: string, first: string, more: string, stop: string)
    ensures mark + first + "" + (" " + more + stop) == mark + (first + " " + more) + stop
  {
  }

  lemma {:induction false} OneGroup(group: seq<string>, rest: seq<string>, continued: bool)
    requires Logical(group)
    ensures Joined(group + rest, continued)
         == Put((if continued then " " else "") + Spoken(group) + "\n", Joined(rest, false))
  {
    var line, more := group[0], group[1..];
    assert group + rest == [line] + (more + rest);
    OneLine(line, more + rest, continued);
    if |group| == 1 {
      assert more + rest == rest;
    } else {
      OneGroup(more, rest, true);
      var mark := if continued then " " else "";
      PutTwice(mark + Said(line) + "", " " + Spoken(more) + "\n", Joined(rest, false));
      Regroup(mark, Said(line), Spoken(more), "\n");
    }
  }

  lemma {:induction false} NoEnd(dangling: seq<string>, continued: bool)
    requires forall k :: 0 <= k < |dangling| ==> Continues(dangling[k])
    ensures Joined(dangling, continued) == if continued || dangling != [] then Err(Unterminated) else Ok("")
  {
    if dangling != [] {
      assert dangling == [dangling[0]] + dangling[1..];
      OneLine(dangling[0], dangling[1..], continued);
      NoEnd(dangling[1..], true);
    }
  }

  /** Joining gives each logical line its own line, and fails exactly when the last one has no end. */
  lemma {:induction false} JoinedIsLogical(groups: seq<seq<string>>, dangling: seq<string>)
    requires Layout(Flatten(groups) + dangling, groups, dangling)
    ensures Joined(Flatten(groups) + dangling, false)
         == if dangling != [] then Err(Unterminated) else Ok(Text(groups))
  {
    if groups == [] {
      assert Flatten(groups) + dangling == dangling;
      NoEnd(dangling, false);
    } else {
      var rest := Flatten(groups[1..]) + dangling;
      assert Flatten(groups) + dangling == groups[0] + rest;
      assert forall k :: 0 <= k < |groups[1..]| ==> groups[1..][k] == groups[k + 1];
      OneGroup(groups[0], rest, false);
      JoinedIsLogical(groups[1..], dangling);
      assert "" + Spoken(groups[0]) + "\n" == Spoken(groups[0]) + "\n";
    }
  }

  /** Every text has a layout. */
  lemma {:induction false} HasLayout(lines: seq<string>) returns (groups: seq<seq<string>>, dangling: seq<string>)
    ensures Layout(lines, groups, dangling)
  {
    if lines == [] {
      groups, dangling := [], [];
    } else {
      var more;
      more, dangling := HasLayout(lines[1..]);
      groups, dangling := Prepended(lines[0], more, dangling);
      assert lines == [lines[0]] + lines[1..];
    }
  }

  lemma Prepended(line: string, more: seq<seq<string>>, after: seq<string>)
    returns (groups: seq<seq<string>>, dangling: seq<string>)
    requires Layout(Flatten(more) + after, more, after)
    ensures Layout([line] + (Flatten(more) + after), groups, dangling)
  {
    dangling := after;
    if !Continues(line) {
      groups := [[line]] + more;
      Grouped([line], more, after);
    } else if more == [] {
      groups, dangling := [], [line] + after;
      Nothing(after);
      Nothing(dangling);
    } else {
      groups := [[line] + more[0]] + more[1..];
      Lengthened(line, more[0]);
      Grouped([line] + more[0], more[1..], after);
      Assoc([line], more[0], Flatten(more[1..]) + after);
      Assoc(more[0], Flatten(more[1..]), after);
    }
  }

  lemma Grouped(group: seq<string>, more: seq<seq<string>>, after: seq<string>)
    requires Logical(group) && forall k :: 0 <= k < |more| ==> Logical(more[k])
    requires forall k :: 0 <= k < |after| ==> Continues(after[k])
    ensures Layout(group + (Flatten(more) + after), [group] + more, after)
  {
    FlattenFirst(group, more);
    Assoc(group, Flatten(more), after);
    forall k | 0 <= k < |[group] + more| ensures Logical(([group] + more)[k]) {
      assert ([group] + more)[k] == if k == 0 then group else more[k - 1];
    }
  }

  lemma FlattenFirst(group: seq<string>, more: seq<seq<string>>)
    ensures Flatten([group] + more) == group + Flatten(more)
  {
    assert ([group] + more)[1..] == more;
  }

  lemma Nothing(lines: seq<string>)
    ensures [] + lines == lines
  {
  }

  lemma Lengthened(line: string, group: seq<string>)
    requires Continues(line) && Logical(group)
    ensures Logical([line] + group)
  {
    var longer := [line] + group;
    forall k | 0 <= k < |longer| - 1 ensures Continues(longer[k]) {
      assert k > 0 ==> longer[k] == group[k - 1];
    }
    assert longer[|longer| - 1] == group[|group| - 1];
  }

  // The first rule

  ghost predicate SeparatorAt(line: string, j: nat) { j + 1 < |line| && line[j] == ':' && line[j + 1] == ' ' }

  ghost predicate HasRule(line: string) { exists j: nat :: SeparatorAt(line, j) }

  /** The line is a header, the separator's first occurrence, and then the prerequisites. */
  ghost predicate Splits(line: string, header: nat, value: string)
  {
    SeparatorAt(line, header) && line[header + 2..] == value && forall j: nat :: j < header ==> !SeparatorAt(line, j)
  }

  lemma {:induction false} SeparatorIsFirst(line: string) returns (header: nat)
    ensures AfterSeparator(line).None? <==> !HasRule(line)
    ensures AfterSeparator(line).Some? ==> Splits(line, header, AfterSeparator(line).value)
  {
    header := 0;
    if |line| >= 2 {
      if line[0] == ':' && line[1] == ' ' {
        assert SeparatorAt(line, 0);
      } else {
        var h := SeparatorIsFirst(line[1..]);
        header := h + 1;
        assert forall j: nat :: SeparatorAt(line[1..], j) <==> SeparatorAt(line, j + 1);
        if HasRule(line) {
          var j: nat :| SeparatorAt(line, j);
          assert SeparatorAt(line[1..], j - 1);
        }
        if AfterSeparator(line).Some? {
          assert line[header + 2..] == line[1..][h + 2..];
          forall j: nat | j < header ensures !SeparatorAt(line, j) {
            assert j > 0 ==> !SeparatorAt(line[1..], j - 1);
          }
        }
      }
    }
  }

  /** Line `n` is the first with a rule. */
  ghost predicate FirstAt(lines: seq<string>, n: nat, header: nat, value: string)
  {
    n < |lines| && Splits(lines[n], header, value) && forall j :: 0 <= j < n ==> !HasRule(lines[j])
  }

  lemma {:induction false} FirstRuleIsFirst(lines: seq<string>) returns (n: nat, header: nat)
    ensures FirstRule(lines).None? <==> forall k :: 0 <= k < |lines| ==> !HasRule(lines[k])
    ensures FirstRule(lines).Some? ==> FirstAt(lines, n, header, FirstRule(lines).value)
  {
    n, header := 0, 0;
    if lines != [] {
      header := SeparatorIsFirst(lines[0]);
      if AfterSeparator(lines[0]).None? {
        n, header := FirstRuleIsFirst(lines[1..]);
        assert forall k :: 0 <= k < |lines[1..]| ==> lines[1..][k] == lines[k + 1];
        n := n + 1;
      }
    }
  }

  // Prerequisites

  /** What a prerequisite list is written with: blanks, escaped letters and plain ones. */
  datatype Piece = Gap(blank: char) | Escaped(letter: char) | Bare(letter: char)

  predicate Proper(piece: Piece)
  {
    match piece
    case Gap(c) => c == ' ' || c == '\t'
    case Escaped(c) => c == ' ' || c == '#' || c == '$'
    case Bare(c) => c != ' ' && c != '\t' && c != '\\' && c != '$'
  }

  function Spelled(piece: Piece): string
  {
    match piece
    case Gap(c) => [c]
    case Escaped(c) => if c == '$' then "$$" else "\\" + [c]
    case Bare(c) => [c]
  }

  function SpelledAll(pieces: seq<Piece>): string
  {
    if pieces == [] then "" else Spelled(pieces[0]) + SpelledAll(pieces[1..])
  }

  /** The letters up to the first gap. */
  function Run(pieces: seq<Piece>): string
  {
    if pieces == [] || pieces[0].Gap? then "" else [pieces[0].letter] + Run(pieces[1..])
  }

  function AfterRun(pieces: seq<Piece>): (rest: seq<Piece>)
    ensures |rest| <= |pieces| && (rest == pieces <==> Run(pieces) == "")
  {
    if pieces == [] || pieces[0].Gap? then pieces else AfterRun(pieces[1..])
  }

  /** The runs of letters between gaps. */
  function Runs(pieces: seq<Piece>): seq<string>
    decreases |pieces|
  {
    if pieces == [] then []
    else if pieces[0].Gap? then Runs(pieces[1..])
    else [Run(pieces)] + Runs(AfterRun(pieces))
  }

  /** Text that no piece starts. */
  predicate Stuck(rest: string)
  {
    && rest != []
    && ((rest[0] == '\\' && (|rest| == 1 || (rest[1] != ' ' && rest[1] != '#')))
        || (rest[0] == '$' && (|rest| == 1 || rest[1] != '$')))
  }

  /** What pieces followed by something unreadable, or by nothing, stand for. */
  function Meaning(pieces: seq<Piece>, rest: string): Outcome<seq<string>>
  {
    if rest == [] then Ok(Runs(pieces)) else if rest[0] == '\\' then Err(BadEscape) else Err(BadVariable)
  }

  /** The same with a word under way. */
  function MeaningFrom(word: string, pieces: seq<Piece>, rest: string): Outcome<seq<string>>
  {
    if rest != [] then Meaning(pieces, rest)
    else Ok(Flush(word + Run(pieces)) + Runs(AfterRun(pieces)))
  }

  lemma PieceIsRead(piece: Piece, more: string, word: string)
    requires Proper(piece)
    ensures Words(Spelled(piece) + more, word)
         == if piece.Gap? then PutAll(Flush(word), Words(more, [])) else Words(more, word + [piece.letter])
  {
    var value := Spelled(piece) + more;
    if |Spelled(piece)| == 1 {
      assert value[1..] == more;
    } else {
      assert value[2..] == more;
    }
  }

  lemma NoWord(pieces: seq<Piece>, rest: string)
    ensures MeaningFrom([], pieces, rest) == Meaning(pieces, rest)
  {
    assert [] + Run(pieces) == Run(pieces);
    if Run(pieces) == "" {
      assert [] + Runs(pieces) == Runs(pieces);
    }
  }

  lemma GapMeans(word: string, pieces: seq<Piece>, rest: string)
    requires pieces != [] && pieces[0].Gap?
    ensures MeaningFrom(word, pieces, rest) == PutAll(Flush(word), Meaning(pieces[1..], rest))
  {
    assert word + "" == word;
  }

  lemma LetterMeans(word: string, pieces: seq<Piece>, rest: string)
    requires pieces != [] && !pieces[0].Gap?
    ensures MeaningFrom(word, pieces, rest) == MeaningFrom(word + [pieces[0].letter], pieces[1..], rest)
  {
    assert word + [pieces[0].letter] + Run(pieces[1..]) == word + Run(pieces);
  }

  lemma {:induction false} WordsFrom(pieces: seq<Piece>, rest: string, word: string)
    requires forall k :: 0 <= k < |pieces| ==> Proper(pieces[k])
    requires rest == [] || Stuck(rest)
    ensures Words(SpelledAll(pieces) + rest, word) == MeaningFrom(word, pieces, rest)
  {
    if pieces == [] {
      assert SpelledAll(pieces) + rest == rest;
      assert word + "" == word && Flush(word) + [] == Flush(word);
    } else {
      var more := SpelledAll(pieces[1..]) + rest;
      assert SpelledAll(pieces) + rest == Spelled(pieces[0]) + more;
      PieceIsRead(pieces[0], more, word);
      if pieces[0].Gap? {
        WordsFrom(pieces[1..], rest, []);
        NoWord(pieces[1..], rest);
        GapMeans(word, pieces, rest);
      } else {
        WordsFrom(pieces[1..], rest, word + [pieces[0].letter]);
        LetterMeans(word, pieces, rest);
      }
    }
  }

  /** However a list is taken apart into pieces, the splitter gives what they mean. */
  lemma WordsAreRuns(pieces: seq<Piece>, rest: string)
    requires forall k :: 0 <= k < |pieces| ==> Proper(pieces[k])
    requires rest == [] || Stuck(rest)
    ensures Prerequisites(SpelledAll(pieces) + rest) == Meaning(pieces, rest)
  {
    WordsFrom(pieces, rest, []);
    NoWord(pieces, rest);
    if Plain(SpelledAll(pieces) + rest) {
      FieldsAreWords(SpelledAll(pieces) + rest, []);
    }
  }

  /** Every list can be taken apart, up to the first thing that cannot be read. */
  lemma {:induction false} TakenApart(value: string) returns (pieces: seq<Piece>, rest: string)
    ensures value == SpelledAll(pieces) + rest && (rest == [] || Stuck(rest))
    ensures forall k :: 0 <= k < |pieces| ==> Proper(pieces[k])
    decreases |value|
  {
    if value == [] || Stuck(value) {
      pieces, rest := [], value;
      assert value == SpelledAll(pieces) + rest;
    } else {
      var piece := if value[0] == ' ' || value[0] == '\t' then Gap(value[0])
                   else if value[0] == '\\' || value[0] == '$' then Escaped(value[1])
                   else Bare(value[0]);
      var more;
      more, rest := TakenApart(value[|Spelled(piece)|..]);
      pieces := [piece] + more;
      assert pieces[1..] == more;
      assert value == Spelled(piece) + value[|Spelled(piece)|..];
      Assoc(Spelled(piece), SpelledAll(more), rest);
    }
  }

  // The parser

  ghost predicate AnyRule(lines: seq<string>)
  {
    exists k :: 0 <= k < |lines| && HasRule(lines[k])
  }

  /** How a text reads: its logical lines, where the first rule is, and the pieces of its prerequisites. */
  datatype Reading = Reading(
    groups: seq<seq<string>>, dangling: seq<string>, line: nat, header: nat, pieces: seq<Piece>, rest: string)

  /** The first rule of the lines is where the reading says, and is made of its pieces. */
  ghost predicate ReadsRule(lines: seq<string>, r: Reading)
  {
    && FirstAt(lines, r.line, r.header, SpelledAll(r.pieces) + r.rest)
    && (forall k :: 0 <= k < |r.pieces| ==> Proper(r.pieces[k]))
    && (r.rest == [] || Stuck(r.rest))
  }

  lemma RuleIsRead(lines: seq<string>, groups: seq<seq<string>>, dangling: seq<string>) returns (r: Reading)
    ensures r.groups == groups && r.dangling == dangling
    ensures FirstRule(lines).None? <==> !AnyRule(lines)
    ensures FirstRule(lines).Some? ==>
      ReadsRule(lines, r) && Prerequisites(FirstRule(lines).value) == Meaning(r.pieces, r.rest)
  {
    var n, header := FirstRuleIsFirst(lines);
    var rule := FirstRule(lines);
    var pieces, rest := TakenApart(if rule.Some? then rule.value else "");
    WordsAreRuns(pieces, rest);
    r := Reading(groups, dangling, n, header, pieces, rest);
  }

  /**
    What parsing gives on any text. It fails for a line that goes on without an
    end, for want of a rule, and at an escape or a variable it does not know;
    otherwise it gives the runs of letters in the first rule's prerequisites.
   */
  lemma ParsedExactly(contents: string) returns (r: Reading)
    ensures Layout(Lines(contents), r.groups, r.dangling)
    ensures r.dangling != [] ==> Parsed(contents) == Err(Unterminated)
    ensures r.dangling == [] ==>
      if !AnyRule(Lines(Text(r.groups))) then Parsed(contents) == Err(NoRule)
      else ReadsRule(Lines(Text(r.groups)), r) && Parsed(contents) == Meaning(r.pieces, r.rest)
  {
    var groups, dangling := HasLayout(Lines(contents));
    JoinedIsLogical(groups, dangling);
    r := RuleIsRead(Lines(Text(groups)), groups, dangling);
  }
}
