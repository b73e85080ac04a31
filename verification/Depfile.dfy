/**
  The make-style dependency list: the printer the shim writes a caller's list
  with, and the parser that reads a compiler's. Each loop is proved against a
  specification on strings; the theorems are about the specifications.
 */
module Depfile {
  import opened Cache
  import Paths

  datatype Target = Target(name: string, quoted: bool)

  datatype Malformed = NoRule | Unterminated | BadEscape | BadVariable

  type Outcome<T> = Result<T, Malformed>

  // Text, as the standard library cuts it

  function IndexOf(s: string, c: char): (k: nat)
    ensures k <= |s| && (k < |s| ==> s[k] == c) && c !in s[..k]
  {
    if s == [] || s[0] == c then 0
    else
      var k := 1 + IndexOf(s[1..], c);
      assert s[..k] == [s[0]] + s[1..][..k - 1];
      k
  }

  /** `strip_suffix('\r')`, left as it is when there is none. */
  function StripCr(s: string): string
  {
    if s != [] && s[|s| - 1] == '\r' then s[..|s| - 1] else s
  }

  /** `trim_end_matches('\t')`. */
  function TrimTabs(s: string): string
  {
    if s != [] && s[|s| - 1] == '\t' then TrimTabs(s[..|s| - 1]) else s
  }

  /** `str::lines`: a line ends at a newline, which takes one carriage return with it. */
  function Lines(s: string): seq<string>
    decreases |s|
  {
    if s == [] then [] else
    var k := IndexOf(s, '\n');
    if k == |s| then [s] else [StripCr(s[..k])] + Lines(s[k + 1..])
  }

  /** `split_once(": ")`: the text after the first separator. */
  function AfterSeparator(line: string): Option<string>
  {
    if |line| < 2 then None
    else if line[0] == ':' && line[1] == ' ' then Some(line[2..])
    else AfterSeparator(line[1..])
  }

  function FirstRule(lines: seq<string>): Option<string>
  {
    if lines == [] then None
    else if AfterSeparator(lines[0]).Some? then AfterSeparator(lines[0])
    else FirstRule(lines[1..])
  }

  // The specification of each loop

  function EscapeChar(c: char): string
  {
    if c == ' ' then "\\ " else if c == '#' then "\\#" else if c == '$' then "$$" else [c]
  }

  function Escape(word: string): string
  {
    if word == [] then [] else EscapeChar(word[0]) + Escape(word[1..])
  }

  function Put(front: string, rest: Outcome<string>): Outcome<string>
  {
    if rest.Ok? then Ok(front + rest.value) else rest
  }

  /** What one physical line contributes, and whether it is continued. */
  function LineText(line: string): (string, bool)
  {
    var trimmed := StripCr(line);
    if trimmed != [] && trimmed[|trimmed| - 1] == '\\'
    then (TrimTabs(trimmed[..|trimmed| - 1]), true)
    else (TrimTabs(trimmed), false)
  }

  function Joined(lines: seq<string>, continued: bool): Outcome<string>
  {
    if lines == [] then (if continued then Err(Unterminated) else Ok("")) else
    var (text, continues) := LineText(lines[0]);
    Put(if continued then " " else "",
        Put(text, Put(if continues then "" else "\n", Joined(lines[1..], continues))))
  }

  function PutAll(front: seq<string>, rest: Outcome<seq<string>>): Outcome<seq<string>>
  {
    if rest.Ok? then Ok(front + rest.value) else rest
  }

  function Flush(word: string): seq<string> { if word == [] then [] else [word] }

  predicate Blank(c: char) { c == ' ' || c == '\t' }

  /** The words of a prerequisite list, `word` being the one under way. */
  function Words(value: string, word: string): Outcome<seq<string>>
    decreases |value|
  {
    if value == [] then Ok(Flush(word))
    else if Blank(value[0]) then PutAll(Flush(word), Words(value[1..], []))
    else if value[0] == '\\' then
      if |value| > 1 && (value[1] == ' ' || value[1] == '#') then Words(value[2..], word + [value[1]])
      else Err(BadEscape)
    else if value[0] == '$' then
      if |value| > 1 && value[1] == '$' then Words(value[2..], word + [value[1]]) else Err(BadVariable)
    else Words(value[1..], word + [value[0]])
  }

  /** `split([' ', '\t'])` with the empty pieces filtered out: the fast path. */
  function Fields(value: string, word: string): seq<string>
  {
    if value == [] then Flush(word)
    else if Blank(value[0]) then Flush(word) + Fields(value[1..], [])
    else Fields(value[1..], word + [value[0]])
  }

  predicate Plain(value: string) { '\\' !in value && '$' !in value }

  function Prerequisites(value: string): Outcome<seq<string>>
  {
    if Plain(value) then Ok(Fields(value, [])) else Words(value, [])
  }

  function Parsed(contents: string): Outcome<seq<string>>
  {
    match Joined(Lines(contents), false)
    case Err(e) => Err(e)
    case Ok(joined) =>
      match FirstRule(Lines(joined))
      case None => Err(NoRule)
      case Some(value) => Prerequisites(value)
  }

  function TargetText(t: Target): string { if t.quoted then Escape(t.name) else t.name }

  function Header(targets: seq<Target>): string
  {
    if targets == [] then ""
    else if |targets| == 1 then TargetText(targets[0])
    else Header(targets[..|targets| - 1]) + " " + TargetText(targets[|targets| - 1])
  }

  function Continued(files: seq<string>): string
  {
    if files == [] then "" else " \\\n " + Escape(files[0]) + Continued(files[1..])
  }

  /** Paths are compared by components, so a repeated separator or a `.` inside makes no difference. */
  predicate SamePath(a: string, b: string) { Paths.Components(a) == Paths.Components(b) }

  function Phony(files: seq<string>, source: string): string
  {
    if files == [] then ""
    else (if SamePath(files[0], source) then "" else Escape(files[0]) + ":\n") + Phony(files[1..], source)
  }

  function Rendered(targets: seq<Target>, files: seq<string>, source: string, phony: bool): string
  {
    Header(targets) + ":" + Continued(files) + "\n" + (if phony then Phony(files, source) else "")
  }

  // The loops

  lemma Assoc<T>(a: seq<T>, b: seq<T>, c: seq<T>)
    ensures a + (b + c) == a + b + c
  {
  }

  method EscapeMakeWord(word: string) returns (escaped: string)
    ensures escaped == Escape(word)
  {
    escaped := "";
    assert word[0..] == word;
    for k := 0 to |word|
      invariant Escape(word) == escaped + Escape(word[k..])
    {
      assert word[k..][1..] == word[k + 1..];
      Assoc(escaped, EscapeChar(word[k]), Escape(word[k + 1..]));
      match word[k]
      case ' ' => escaped := escaped + "\\ ";
      case '#' => escaped := escaped + "\\#";
      case '$' => escaped := escaped + "$$";
      case other => escaped := escaped + [other];
    }
  }

  method JoinContinuations(contents: string) returns (r: Outcome<string>)
    ensures r == Joined(Lines(contents), false)
  {
    var lines := Lines(contents);
    var joined, continued := "", false;
    assert lines[0..] == lines;
    PutNothing(Joined(lines, false));
    for k := 0 to |lines|
      invariant Joined(lines, false) == Put(joined, Joined(lines[k..], continued))
    {
      var trimmed := StripCr(lines[k]);
      var text, continues := trimmed, false;
      if trimmed != [] && trimmed[|trimmed| - 1] == '\\' {
        text, continues := trimmed[..|trimmed| - 1], true;
      }
      JoinOne(lines, k, continued, joined);
      assert LineText(lines[k]) == (TrimTabs(text), continues);
      if continued {
        joined := joined + " ";
      }
      joined := joined + TrimTabs(text);
      if !continues {
        joined := joined + "\n";
      }
      continued := continues;
    }
    assert lines[|lines|..] == [] && joined + "" == joined;
    return if continued then Err(Unterminated) else Ok(joined);
  }

  lemma PutNothing(rest: Outcome<string>)
    ensures Put("", rest) == rest
  {
    if rest.Ok? {
      assert "" + rest.value == rest.value;
    }
  }

  /** One more line moves its text from what is left to what is done. */
  lemma JoinOne(lines: seq<string>, k: nat, continued: bool, joined: string)
    requires k < |lines|
    ensures var (text, continues) := LineText(lines[k]);
            var done := (if continued then joined + " " else joined) + text;
            Put(joined, Joined(lines[k..], continued))
            == Put(if continues then done else done + "\n", Joined(lines[k + 1..], continues))
  {
    assert lines[k..][1..] == lines[k + 1..];
    var (text, continues) := LineText(lines[k]);
    var mark, stop := if continued then " " else "", if continues then "" else "\n";
    var rest := Joined(lines[k + 1..], continues);
    PutTwice(joined, mark, Put(text, Put(stop, rest)));
    PutTwice(joined + mark, text, Put(stop, rest));
    PutTwice(joined + mark + text, stop, rest);
    assert joined + "" == joined && joined + mark + text + "" == joined + mark + text;
  }

  lemma PutTwice(a: string, b: string, rest: Outcome<string>)
    ensures Put(a, Put(b, rest)) == Put(a + b, rest)
  {
    if rest.Ok? {
      Assoc(a, b, rest.value);
    }
  }

  method SplitEscapedPrerequisites(value: string) returns (r: Outcome<seq<string>>)
    ensures r == Words(value, [])
  {
    var files: seq<string> := [];
    var current: string := "";
    var k := 0;
    assert value[0..] == value;
    PutAllNothing(Words(value, []));
    while k < |value|
      invariant k <= |value|
      invariant Words(value, []) == PutAll(files, Words(value[k..], current))
    {
      var character := value[k];
      var rest := value[k..];
      assert rest[1..] == value[k + 1..];
      if character == ' ' || character == '\t' {
        PutAllTwice(files, Flush(current), Words(value[k + 1..], []));
        if current != [] {
          files := files + [current];
        } else {
          assert files + [] == files;
        }
        current := "";
        k := k + 1;
      } else if character == '\\' {
        if k + 1 < |value| && (value[k + 1] == ' ' || value[k + 1] == '#') {
          assert rest[2..] == value[k + 2..];
          current := current + [value[k + 1]];
          k := k + 2;
        } else {
          return Err(BadEscape);
        }
      } else if character == '$' {
        if k + 1 < |value| && value[k + 1] == '$' {
          assert rest[2..] == value[k + 2..];
          current := current + [value[k + 1]];
          k := k + 2;
        } else {
          return Err(BadVariable);
        }
      } else {
        current := current + [character];
        k := k + 1;
      }
    }
    assert value[k..] == [];
    if current != [] {
      files := files + [current];
    } else {
      assert files + [] == files;
    }
    return Ok(files);
  }

  lemma PutAllNothing(rest: Outcome<seq<string>>)
    ensures PutAll([], rest) == rest
  {
    if rest.Ok? {
      assert [] + rest.value == rest.value;
    }
  }

  lemma PutAllTwice(a: seq<string>, b: seq<string>, rest: Outcome<seq<string>>)
    ensures PutAll(a, PutAll(b, rest)) == PutAll(a + b, rest)
  {
    if rest.Ok? {
      assert a + (b + rest.value) == (a + b) + rest.value;
    }
  }

  /** The fast path gives what the escaped splitter gives, on every string that takes it. */
  lemma {:induction false} FieldsAreWords(value: string, word: string)
    requires Plain(value)
    ensures Words(value, word) == Ok(Fields(value, word))
  {
    if value != [] {
      assert forall c :: c in value[1..] ==> c in value;
      if Blank(value[0]) {
        FieldsAreWords(value[1..], []);
      } else {
        FieldsAreWords(value[1..], word + [value[0]]);
      }
    }
  }

  /** `split_prerequisites` agrees with the escaped splitter on every string. */
  method SplitPrerequisites(value: string) returns (r: Outcome<seq<string>>)
    ensures r == Words(value, [])
    ensures r == Prerequisites(value)
  {
    if Plain(value) {
      FieldsAreWords(value, []);
      return Ok(Fields(value, []));
    }
    r := SplitEscapedPrerequisites(value);
  }

  /** `CcDepfile::parse`. */
  method Parse(contents: string) returns (r: Outcome<seq<string>>)
    ensures r == Parsed(contents)
  {
    var joined := JoinContinuations(contents);
    if joined.Err? {
      return Err(joined.error);
    }
    var lines := Lines(joined.value);
    assert lines[0..] == lines;
    for k := 0 to |lines|
      invariant FirstRule(lines) == FirstRule(lines[k..])
    {
      assert lines[k..][1..] == lines[k + 1..];
      var found := AfterSeparator(lines[k]);
      if found.Some? {
        r := SplitPrerequisites(found.value);
        return;
      }
    }
    return Err(NoRule);
  }

  method RenderTargets(targets: seq<Target>) returns (rendered: string)
    ensures rendered == Header(targets)
  {
    rendered := "";
    for k := 0 to |targets|
      invariant rendered == Header(targets[..k])
    {
      assert targets[..k + 1][..k] == targets[..k];
      if k > 0 {
        rendered := rendered + " ";
      } else {
        assert forall text: string :: "" + text == text;
      }
      if targets[k].quoted {
        var escaped := EscapeMakeWord(targets[k].name);
        rendered := rendered + escaped;
      } else {
        rendered := rendered + targets[k].name;
      }
    }
    assert targets[..|targets|] == targets;
  }

  method RenderPrerequisites(front: string, files: seq<string>) returns (rendered: string)
    ensures rendered == front + Continued(files)
  {
    rendered := front;
    assert files[0..] == files;
    for k := 0 to |files|
      invariant front + Continued(files) == rendered + Continued(files[k..])
    {
      assert files[k..][1..] == files[k + 1..];
      Assoc(rendered, " \\\n " + Escape(files[k]), Continued(files[k + 1..]));
      Assoc(rendered, " \\\n ", Escape(files[k]));
      rendered := rendered + " \\\n ";
      var escaped := EscapeMakeWord(files[k]);
      rendered := rendered + escaped;
    }
    assert files[|files|..] == [] && rendered + "" == rendered;
  }

  method RenderPhony(front: string, files: seq<string>, source: string) returns (rendered: string)
    ensures rendered == front + Phony(files, source)
  {
    rendered := front;
    assert files[0..] == files;
    for k := 0 to |files|
      invariant front + Phony(files, source) == rendered + Phony(files[k..], source)
    {
      assert files[k..][1..] == files[k + 1..];
      if !SamePath(files[k], source) {
        Assoc(rendered, Escape(files[k]) + ":\n", Phony(files[k + 1..], source));
        Assoc(rendered, Escape(files[k]), ":\n");
        var escaped := EscapeMakeWord(files[k]);
        rendered := rendered + escaped;
        rendered := rendered + ":\n";
      } else {
        assert "" + Phony(files[k + 1..], source) == Phony(files[k + 1..], source);
      }
    }
    assert files[|files|..] == [] && rendered + "" == rendered;
  }

  /** `CcDepfile::render`. */
  method Render(targets: seq<Target>, files: seq<string>, source: string, phony: bool) returns (rendered: string)
    ensures rendered == Rendered(targets, files, source, phony)
  {
    rendered := RenderTargets(targets);
    rendered := rendered + ":";
    rendered := RenderPrerequisites(rendered, files);
    rendered := rendered + "\n";
    if phony {
      rendered := RenderPhony(rendered, files, source);
    } else {
      assert rendered + "" == rendered;
    }
  }
}
