/**
 Reading and writing `.env` files: `read_env` and `write_env_value` of scripts/lib/onboarding.py. A file is
 its decoded text; `None` is a file that is not there.
 */
module EnvFile {
  import opened Wrappers
  import opened Text

  // ---------- Lines ----------

  /** Where `str.splitlines` breaks. */
  predicate IsBreak(c: char) {
    '\n' <= c <= '\r' || '\U{1C}' <= c <= '\U{1E}' || c == '\U{85}' || c == '\U{2028}' || c == '\U{2029}'
  }

  predicate IsLine(s: string) {
    forall k | 0 <= k < |s| :: !IsBreak(s[k])
  }

  /** The length of the first line. */
  function LineLength(s: string): (n: nat)
    ensures n <= |s| && IsLine(s[..n]) && (n < |s| ==> IsBreak(s[n]))
  {
    if s == "" || IsBreak(s[0]) then 0
    else
      assert s[..1 + LineLength(s[1..])] == [s[0]] + s[1..][..LineLength(s[1..])];
      1 + LineLength(s[1..])
  }

  /** The length of the line end at `n`: a carriage return and the line feed after it are one. */
  function BreakLength(s: string, n: nat): nat
    requires n < |s|
  {
    if s[n] == '\r' && n + 1 < |s| && s[n + 1] == '\n' then 2 else 1
  }

  /** `str.splitlines()`; it makes no difference that reading a text turns other line ends into line feeds. */
  function SplitLines(s: string): seq<string> {
    if s == "" then []
    else
      var n := LineLength(s);
      [s[..n]] + if n < |s| then SplitLines(s[n + BreakLength(s, n)..]) else []
  }

  function Lines(file: Option<string>): seq<string> {
    if file.Some? then SplitLines(file.value) else []
  }

  /** `"\n".join(lines) + "\n"` */
  function Joined(lines: seq<string>): string {
    if |lines| <= 1 then (if lines == [] then "" else lines[0]) + "\n"
    else lines[0] + "\n" + Joined(lines[1..])
  }

  lemma LineLengthIs(s: string, n: nat)
    requires n < |s| && IsLine(s[..n]) && IsBreak(s[n])
    ensures LineLength(s) == n
  {
  }

  /** Splitting gives back what was joined. */
  lemma {:induction false} SplitJoined(lines: seq<string>)
    requires lines != [] && forall k | 0 <= k < |lines| :: IsLine(lines[k])
    ensures SplitLines(Joined(lines)) == lines
  {
    var text, first := Joined(lines), lines[0];
    assert text[..|first|] == first && text[|first|] == '\n';
    LineLengthIs(text, |first|);
    if |lines| == 1 {
      assert text[|first| + 1..] == "";
    } else {
      assert text[|first| + 1..] == Joined(lines[1..]);
      SplitJoined(lines[1..]);
    }
  }

  lemma {:induction false} SplitIsLines(s: string)
    ensures forall k | 0 <= k < |SplitLines(s)| :: IsLine(SplitLines(s)[k])
  {
    if s != "" {
      var n := LineLength(s);
      if n < |s| {
        SplitIsLines(s[n + BreakLength(s, n)..]);
      }
    }
  }

  lemma SplitFirst(s: string, n: nat)
    requires n < |s| && IsLine(s[..n]) && IsBreak(s[n])
    ensures SplitLines(s) == [s[..n]] + SplitLines(s[n + BreakLength(s, n)..])
  {
    LineLengthIs(s, n);
  }

  /** A line feed separates what is split. */
  lemma {:induction false} SplitAtLineFeed(s: string, t: string)
    ensures SplitLines(s + "\n" + t) == SplitLines(s + "\n") + SplitLines(t)
  {
    hide SplitLines;
    var head := s + "\n";
    var text := head + t;
    assert head[|s|] == '\n';
    var n := LineLength(head);
    var end := n + BreakLength(head, n);
    assert text[..n] == head[..n];
    SplitFirst(head, n);
    SplitFirst(text, n);
    assert head[end..] + t == text[end..];
    if end < |head| {
      assert head[end..] == s[end..] + "\n";
      SplitAtLineFeed(s[end..], t);
      assert s[end..] + "\n" + t == text[end..];
    } else {
      assert head[end..] == "" && text[end..] == t;
      SplitNothing();
    }
  }

  lemma SplitNothing()
    ensures SplitLines("") == []
  {
  }

  lemma JoinedOneMore(line: string, lines: seq<string>)
    ensures Joined([line]) == line + "\n"
    ensures lines != [] ==> Joined([line] + lines) == line + "\n" + Joined(lines)
  {
  }

  /** Any text among lines, joined and split again: the lines as they are, and the text as its own lines. */
  lemma {:induction false} SplitJoinedAround(before: seq<string>, text: string, after: seq<string>)
    requires (forall k | 0 <= k < |before| :: IsLine(before[k])) && forall k | 0 <= k < |after| :: IsLine(after[k])
    ensures SplitLines(Joined(before + [text] + after)) == before + SplitLines(text + "\n") + after
  {
    hide SplitLines, Joined, IsLine;
    if before == [] {
      assert before + [text] + after == [text] + after;
      JoinedOneMore(text, after);
      if after == [] {
        assert [text] + after == [text];
      } else {
        SplitAtLineFeed(text, Joined(after));
        SplitJoined(after);
      }
    } else {
      var rest := before[1..] + [text] + after;
      assert before + [text] + after == [before[0]] + rest;
      JoinedOneMore(before[0], rest);
      SplitAtLineFeed(before[0], Joined(rest));
      SplitJoined([before[0]]);
      SplitJoinedAround(before[1..], text, after);
      assert before == [before[0]] + before[1..];
    }
  }

  // ---------- One line ----------

  function DropLeft(s: string, c: char): string {
    if s != "" && s[0] == c then DropLeft(s[1..], c) else s
  }

  function DropRight(s: string, c: char): string {
    if s != "" && s[|s| - 1] == c then DropRight(s[..|s| - 1], c) else s
  }

  /** `value.strip().strip('"').strip("'")` */
  function Cleaned(s: string): string {
    var t := DropRight(DropLeft(Strip(s), '"'), '"');
    DropRight(DropLeft(t, '\''), '\'')
  }

  datatype Entry = Entry(key: string, value: string)

  /** What a line defines, if anything. */
  function Parse(line: string): Option<Entry> {
    var stripped := Strip(line);
    var i := IndexOf(stripped, '=');
    if stripped == "" || stripped[0] == '#' || i == |stripped| then None
    else Some(Entry(Strip(stripped[..i]), Cleaned(stripped[i + 1..])))
  }

  predicate Defines(line: string, key: string) {
    Parse(line).Some? && Parse(line).value.key == key
  }

  /** Later lines win. */
  function Env(lines: seq<string>): map<string, string> {
    if lines == [] then map[]
    else
      var before, entry := Env(lines[..|lines| - 1]), Parse(lines[|lines| - 1]);
      if entry.Some? then before[entry.value.key := entry.value.value] else before
  }

  // ---------- Writing ----------

  /** `line.startswith(f"{key}=")` */
  predicate StartsWithKey(line: string, key: string) {
    key + "=" <= line
  }

  /** The first line that starts with the key and an equals sign. */
  function FirstOf(lines: seq<string>, key: string): (i: nat)
    ensures i <= |lines| && (i < |lines| ==> StartsWithKey(lines[i], key))
    ensures forall k | 0 <= k < i :: !StartsWithKey(lines[k], key)
  {
    if lines == [] || StartsWithKey(lines[0], key) then 0 else 1 + FirstOf(lines[1..], key)
  }

  function Written(lines: seq<string>, key: string, value: string): seq<string> {
    var i := FirstOf(lines, key);
    if i < |lines| then lines[i := key + "=" + value] else lines + [key + "=" + value]
  }

  lemma EnvOneMore(lines: seq<string>, line: string)
    ensures Env(lines + [line]) ==
      if Parse(line).Some? then Env(lines)[Parse(line).value.key := Parse(line).value.value] else Env(lines)
  {
  }

  /** The body of the loop of `read_env`. */
  method ReadLine(line: string, values: map<string, string>) returns (r: map<string, string>)
    ensures r == if Parse(line).Some? then values[Parse(line).value.key := Parse(line).value.value] else values
  {
    var stripped := Strip(line);
    var i := IndexOf(stripped, '=');
    if stripped == "" || stripped[0] == '#' || i == |stripped| {
      return values;
    }
    var key, value := stripped[..i], stripped[i + 1..];
    r := values[Strip(key) := Cleaned(value)];
  }

  class File {
    var content: Option<string>

    /** `read_env` */
    method ReadEnv() returns (values: map<string, string>)
      ensures values == Env(Lines(content))
    {
      values := map[];
      if content.None? {
        return;
      }
      var lines := SplitLines(content.value);
      for k := 0 to |lines|
        invariant values == Env(lines[..k])
      {
        EnvOneMore(lines[..k], lines[k]);
        assert lines[..k + 1] == lines[..k] + [lines[k]];
        values := ReadLine(lines[k], values);
      }
      assert lines[..|lines|] == lines;
    }

    /** `write_env_value` */
    method WriteEnvValue(key: string, value: string)
      modifies this
      ensures content == Some(Joined(Written(Lines(old(content)), key, value)))
    {
      var lines := if content.Some? then SplitLines(content.value) else [];
      ghost var before := lines;
      var rendered := key + "=" + value;
      var replaced := false;
      for i := 0 to |lines|
        invariant !replaced && lines == before && forall k | 0 <= k < i :: !StartsWithKey(before[k], key)
      {
        if StartsWithKey(lines[i], key) {
          lines := lines[i := rendered];
          replaced := true;
          assert FirstOf(before, key) == i;
          break;
        }
      }
      if !replaced {
        lines := lines + [rendered];
      }
      assert lines == Written(before, key, value);
      content := Some(Joined(lines));
    }
  }

  // ---------- Round trip ----------

  predicate IsKey(key: string) {
    key != "" && IsLine(key) && IsStripped(key) && key[0] != '#' && '=' !in key
  }

  predicate AllSpace(s: string) {
    forall k | 0 <= k < |s| :: IsSpace(s[k])
  }

  lemma {:induction false} StripLeftOneMore(s: string, c: char)
    ensures StripLeft(s + [c]) == if AllSpace(s) then StripLeft([c]) else StripLeft(s) + [c]
  {
    if s == "" {
      assert s + [c] == [c];
    } else if IsSpace(s[0]) {
      StripLeftOneMore(s[1..], c);
      assert (s + [c])[1..] == s[1..] + [c];
      assert AllSpace(s) <==> AllSpace(s[1..]) by {
        assert forall k | 1 <= k < |s| :: s[k] == s[1..][k - 1];
      }
    }
  }

  lemma {:induction false} StripLeftOfSpace(s: string)
    requires AllSpace(s)
    ensures StripLeft(s) == ""
  {
    if s != "" {
      StripLeftOfSpace(s[1..]);
    }
  }

  /** Stripping the right end first makes no difference. */
  lemma {:induction false} StripOfStripRight(s: string)
    ensures Strip(StripRight(s)) == Strip(s)
  {
    if s != "" && IsSpace(s[|s| - 1]) {
      var front, last := s[..|s| - 1], s[|s| - 1];
      StripOfStripRight(front);
      StripLeftOneMore(front, last);
      assert s == front + [last];
      if AllSpace(front) {
        StripLeftOfSpace(front);
        StripLeftOfSpace([last]);
      } else {
        assert (StripLeft(front) + [last])[..|StripLeft(front)|] == StripLeft(front);
      }
    }
  }

  lemma {:induction false} StripRightAfter(s: string, t: string)
    requires s != "" && !IsSpace(s[|s| - 1])
    ensures StripRight(s + t) == s + StripRight(t)
  {
    if t == "" {
      assert s + t == s;
    } else if IsSpace(t[|t| - 1]) {
      StripRightAfter(s, t[..|t| - 1]);
      assert (s + t)[..|s + t| - 1] == s + t[..|t| - 1];
    }
  }

  lemma IndexOfEquals(key: string, rest: string)
    requires '=' !in key
    ensures IndexOf(key + "=" + rest, '=') == |key|
  {
    var s := key + "=" + rest;
    assert s[|key|] == '=';
    forall k | 0 <= k < |key| ensures s[k] != '=' {
      assert s[k] == key[k];
    }
  }

  /** A line that starts with a key and an equals sign defines that key, as what follows. */
  lemma ParseOfKey(key: string, value: string)
    requires IsKey(key)
    ensures Parse(key + "=" + value) == Some(Entry(key, Cleaned(value)))
  {
    var head := key + "=";
    var line := head + value;
    assert StripLeft(line) == line;
    assert head[|head| - 1] == '=';
    StripRightAfter(head, value);
    var rest := StripRight(value);
    assert Strip(line) == key + "=" + rest;
    IndexOfEquals(key, rest);
    assert (key + "=" + rest)[..|key|] == key && (key + "=" + rest)[|key| + 1..] == rest;
    StripOfStripped(key);
    StripOfStripRight(value);
  }

  lemma ParseOfLine(line: string, key: string)
    requires IsKey(key) && StartsWithKey(line, key)
    ensures Defines(line, key)
  {
    assert line == key + "=" + line[|key| + 1..];
    ParseOfKey(key, line[|key| + 1..]);
  }

  /** A line after the `i`-th defines the key. */
  predicate DefinedAfter(lines: seq<string>, i: nat, key: string) {
    exists k | i < k < |lines| :: Defines(lines[k], key)
  }

  lemma DefinedAfterOneMore(front: seq<string>, last: string, i: nat, key: string)
    requires i < |front|
    ensures DefinedAfter(front + [last], i, key) <==> DefinedAfter(front, i, key) || Defines(last, key)
  {
    hide Defines;
    var lines := front + [last];
    assert lines[|front|] == last;
    if DefinedAfter(front, i, key) {
      var k :| i < k < |front| && Defines(front[k], key);
      assert lines[k] == front[k];
    }
  }

  /** Replacing a line that defines the key by another one that does. */
  lemma {:induction false} EnvOfReplaced(lines: seq<string>, i: nat, line: string, key: string, value: string)
    requires i < |lines| && Defines(lines[i], key) && Parse(line) == Some(Entry(key, value))
    ensures key in Env(lines)
    ensures Env(lines[i := line]) == Env(lines)[key := if DefinedAfter(lines, i, key) then Env(lines)[key] else value]
  {
    hide Parse, Env;
    var n := |lines| - 1;
    var front, last := lines[..n], lines[n];
    assert lines == front + [last];
    EnvOneMore(front, last);
    if i == n {
      assert lines[i := line] == front + [line];
      EnvOneMore(front, line);
    } else {
      assert lines[i := line] == front[i := line] + [last];
      EnvOneMore(front[i := line], last);
      EnvOfReplaced(front, i, line, key, value);
      DefinedAfterOneMore(front, last, i, key);
    }
  }

  /** A line after the one that is written defines the key again. */
  predicate IsRedefined(lines: seq<string>, key: string) {
    DefinedAfter(lines, FirstOf(lines, key), key)
  }

  /** The lines of a file after writing. */
  function LinesAfter(lines: seq<string>, key: string, value: string): seq<string> {
    var i := FirstOf(lines, key);
    lines[..i] + SplitLines(key + "=" + value + "\n") + if i < |lines| then lines[i + 1..] else []
  }

  lemma WrittenLines(file: Option<string>, key: string, value: string)
    ensures SplitLines(Joined(Written(Lines(file), key, value))) == LinesAfter(Lines(file), key, value)
  {
    var lines := Lines(file);
    var i := FirstOf(lines, key);
    if file.Some? {
      SplitIsLines(file.value);
    }
    hide SplitLines, Joined, IsLine;
    var after := if i < |lines| then lines[i + 1..] else [];
    assert Written(lines, key, value) == lines[..i] + [key + "=" + value] + after;
    SplitJoinedAround(lines[..i], key + "=" + value, after);
  }

  lemma LineThenRead(file: Option<string>, key: string, value: string)
    requires IsKey(key) && IsLine(value)
    ensures var before := Env(Lines(file));
      && (IsRedefined(Lines(file), key) ==> key in before)
      && Env(SplitLines(Joined(Written(Lines(file), key, value)))) ==
         before[key := if IsRedefined(Lines(file), key) then before[key] else Cleaned(value)]
  {
    var lines := Lines(file);
    var i, line := FirstOf(lines, key), key + "=" + value;
    if file.Some? {
      SplitIsLines(file.value);
    }
    assert IsLine(line);
    SplitJoined(Written(lines, key, value));
    ParseOfKey(key, value);
    if i < |lines| {
      ParseOfLine(lines[i], key);
      EnvOfReplaced(lines, i, line, key, Cleaned(value));
    } else {
      EnvOneMore(lines, line);
    }
  }

  /**
   Reading what was written: it takes the place of the first line for the key, or comes at the end, as one line, or as
   several if the value has line breaks, and the other lines stay. If it is one line, every other key has its old
   value, and the key has the new one, cleaned, unless a line after the first one for the key defines it again; then
   it keeps its old value.
   */
  lemma WriteThenRead(file: Option<string>, key: string, value: string)
    requires IsKey(key)
    ensures var lines, after := Lines(file), SplitLines(Joined(Written(Lines(file), key, value)));
      && after == LinesAfter(lines, key, value)
      && (IsRedefined(lines, key) ==> key in Env(lines))
      && (IsLine(value) ==>
           Env(after) == Env(lines)[key := if IsRedefined(lines, key) then Env(lines)[key] else Cleaned(value)])
  {
    WrittenLines(file, key, value);
    LineThenRead(file, key, "");
    if IsLine(value) {
      LineThenRead(file, key, value);
    }
  }

  predicate IsQuoteOrSpace(c: char) {
    IsSpace(c) || c == '"' || c == '\''
  }

  /** A value is read back as it is if and only if it neither starts nor ends with white space or a quote. */
  lemma CleanedIff(s: string)
    ensures Cleaned(s) == s <==> s == "" || (!IsQuoteOrSpace(s[0]) && !IsQuoteOrSpace(s[|s| - 1]))
  {
    var t := Strip(s);
    StripIsShorter(s);
    var u := DropRight(DropLeft(t, '"'), '"');
    DropIsShorter(t, '"');
    DropIsShorter(u, '\'');
  }

  lemma {:induction false} StripLeftIsShorter(s: string)
    ensures |StripLeft(s)| <= |s| && (StripLeft(s) == s <==> s == "" || !IsSpace(s[0]))
    ensures |StripLeft(s)| == |s| ==> StripLeft(s) == s
  {
    if s != "" && IsSpace(s[0]) {
      StripLeftIsShorter(s[1..]);
    }
  }

  lemma {:induction false} StripRightIsShorter(s: string)
    ensures |StripRight(s)| <= |s| && (StripRight(s) == s <==> s == "" || !IsSpace(s[|s| - 1]))
    ensures |StripRight(s)| == |s| ==> StripRight(s) == s
  {
    if s != "" && IsSpace(s[|s| - 1]) {
      StripRightIsShorter(s[..|s| - 1]);
    }
  }

  lemma StripIsShorter(s: string)
    ensures |Strip(s)| <= |s| && (|Strip(s)| == |s| <==> IsStripped(s)) && (IsStripped(s) ==> Strip(s) == s)
  {
    StripLeftIsShorter(s);
    StripRightIsShorter(StripLeft(s));
  }

  lemma {:induction false} DropLeftIsShorter(s: string, c: char)
    ensures |DropLeft(s, c)| <= |s| && (|DropLeft(s, c)| == |s| <==> s == "" || s[0] != c)
  {
    if s != "" && s[0] == c {
      DropLeftIsShorter(s[1..], c);
    }
  }

  lemma {:induction false} DropRightIsShorter(s: string, c: char)
    ensures |DropRight(s, c)| <= |s| && (|DropRight(s, c)| == |s| <==> s == "" || s[|s| - 1] != c)
  {
    if s != "" && s[|s| - 1] == c {
      DropRightIsShorter(s[..|s| - 1], c);
    }
  }

  lemma DropIsShorter(s: string, c: char)
    ensures var t := DropRight(DropLeft(s, c), c);
      |t| <= |s| && (|t| == |s| <==> s == "" || (s[0] != c && s[|s| - 1] != c))
  {
    DropLeftIsShorter(s, c);
    DropRightIsShorter(DropLeft(s, c), c);
  }

  lemma CleanedIsLine(s: string)
    requires IsLine(s)
    ensures IsLine(Cleaned(s))
  {
    StripLeftIsLine(s);
    StripRightIsLine(StripLeft(s));
    var t := DropRight(DropLeft(Strip(s), '"'), '"');
    DropLeftIsLine(Strip(s), '"');
    DropRightIsLine(DropLeft(Strip(s), '"'), '"');
    DropLeftIsLine(t, '\'');
    DropRightIsLine(DropLeft(t, '\''), '\'');
  }

  lemma StripLeftIsLine(s: string)
    requires IsLine(s)
    ensures IsLine(StripLeft(s))
  {
  }

  lemma StripRightIsLine(s: string)
    requires IsLine(s)
    ensures IsLine(StripRight(s))
  {
  }

  lemma DropLeftIsLine(s: string, c: char)
    requires IsLine(s)
    ensures IsLine(DropLeft(s, c))
  {
  }

  lemma DropRightIsLine(s: string, c: char)
    requires IsLine(s)
    ensures IsLine(DropRight(s, c))
  {
  }

  lemma ParsedIsLine(line: string)
    requires IsLine(line)
    ensures Parse(line).Some? ==> IsLine(Parse(line).value.value)
  {
    StripLeftIsLine(line);
    StripRightIsLine(StripLeft(line));
    var stripped := Strip(line);
    var i := IndexOf(stripped, '=');
    if i < |stripped| {
      CleanedIsLine(stripped[i + 1..]);
    }
  }

  /** No value that is read has a line break. */
  lemma {:induction false} EnvIsLines(lines: seq<string>, key: string)
    requires forall k | 0 <= k < |lines| :: IsLine(lines[k])
    ensures key in Env(lines) ==> IsLine(Env(lines)[key])
  {
    if lines != [] {
      EnvIsLines(lines[..|lines| - 1], key);
      ParsedIsLine(lines[|lines| - 1]);
    }
  }

  /**
   What is written is what is read if and only if it is a line, and the value survives, or is what a later line says
   anyway.
   */
  lemma WrittenIsReadIff(file: Option<string>, key: string, value: string)
    requires IsKey(key)
    ensures var lines, after := Lines(file), Env(SplitLines(Joined(Written(Lines(file), key, value))));
      && (IsRedefined(lines, key) ==> key in Env(lines))
      && (key in after && after[key] == value <==>
           && IsLine(value)
           && if IsRedefined(lines, key) then Env(lines)[key] == value
              else value == "" || (!IsQuoteOrSpace(value[0]) && !IsQuoteOrSpace(value[|value| - 1])))
  {
    WriteThenRead(file, key, value);
    if IsLine(value) {
      CleanedIff(value);
    } else {
      var text := Joined(Written(Lines(file), key, value));
      SplitIsLines(text);
      EnvIsLines(SplitLines(text), key);
    }
  }

  /** A value with a line separator is read up to that separator. */
  lemma LineBreakIsLost(key: string, first: string, second: string)
    requires IsKey(key) && IsLine(first) && IsLine(second) && '=' !in second
    ensures var after := SplitLines(Joined(Written([], key, first + "\U{2028}" + second)));
      after == [key + "=" + first, second] && Env(after) == map[key := Cleaned(first)]
  {
    hide SplitLines, Env, Parse, Cleaned, IsKey;
    var line := key + "=" + first;
    IsLineOfKey(key, first);
    BreakSplits(line, second);
    assert key + "=" + (first + "\U{2028}" + second) == line + "\U{2028}" + second;
    assert Written([], key, first + "\U{2028}" + second) == [line + "\U{2028}" + second];
    assert Joined([line + "\U{2028}" + second]) == line + "\U{2028}" + (second + "\n");
    ParseOfKey(key, first);
    NoEquals(second);
    assert [line, second] == [line] + [second] && [line] == [] + [line];
    EnvOneMore([], line);
    EnvOneMore([line], second);
    EnvOfNothing();
  }

  lemma EnvOfNothing()
    ensures Env([]) == map[]
  {
  }

  lemma IsLineOfKey(key: string, value: string)
    requires IsKey(key) && IsLine(value)
    ensures IsLine(key + "=" + value)
  {
  }

  lemma BreakSplits(line: string, second: string)
    requires IsLine(line) && IsLine(second)
    ensures SplitLines(line + "\U{2028}" + (second + "\n")) == [line, second]
  {
    hide SplitLines;
    var text := line + "\U{2028}" + (second + "\n");
    assert text[..|line|] == line && text[|line|] == '\U{2028}' && text[|line| + 1..] == second + "\n";
    SplitFirst(text, |line|);
    JoinedOneMore(second, []);
    SplitJoined([second]);
  }

  /** A line without an equals sign defines nothing. */
  lemma NoEquals(line: string)
    requires '=' !in line
    ensures Parse(line).None?
  {
    StripHasNoMore(line);
    assert Strip(line) == "" || IndexOf(Strip(line), '=') == |Strip(line)|;
  }

  lemma StripHasNoMore(s: string)
    ensures forall c | c in Strip(s) :: c in s
  {
    StripLeftHasNoMore(s);
    StripRightHasNoMore(StripLeft(s));
  }

  lemma StripLeftHasNoMore(s: string)
    ensures forall c | c in StripLeft(s) :: c in s
  {
  }

  lemma StripRightHasNoMore(s: string)
    ensures forall c | c in StripRight(s) :: c in s
  {
  }

  /** Of two definitions, writing replaces the first one, and reading still gives the second one. */
  lemma LaterLineIsRead(key: string, first: string, second: string, value: string)
    requires IsKey(key) && IsLine(first) && IsLine(second) && IsLine(value)
    ensures var file := Joined([key + "=" + first, key + "=" + second]);
      && Written(SplitLines(file), key, value) == [key + "=" + value, key + "=" + second]
      && key in Env(Written(SplitLines(file), key, value))
      && Env(Written(SplitLines(file), key, value))[key] == Cleaned(second)
  {
    hide Parse, Env, Cleaned, SplitLines;
    var lineA, lineB := key + "=" + first, key + "=" + second;
    SplitJoined([lineA, lineB]);
    assert FirstOf([lineA, lineB], key) == 0;
    ParseOfKey(key, second);
    assert [key + "=" + value, lineB] == [key + "=" + value] + [lineB];
    EnvOneMore([key + "=" + value], lineB);
  }

  /** A line is a definition exactly if it is not blank, no comment, and has an equals sign. */
  lemma DefinesIff(line: string)
    ensures Parse(line).Some? <==> Strip(line) != "" && Strip(line)[0] != '#' && '=' in Strip(line)
  {
  }

  /** What is before the first equals sign is the key, and what is after it the value. */
  lemma DefinesWhat(line: string, left: string, right: string)
    requires Strip(line) == left + "=" + right && '=' !in left && (left != "" ==> left[0] != '#')
    ensures Parse(line) == Some(Entry(Strip(left), Cleaned(right)))
  {
    IndexOfEquals(left, right);
    assert (left + "=" + right)[..|left|] == left && (left + "=" + right)[|left| + 1..] == right;
  }

  /** A quoted value is read without its quotes. */
  lemma QuotesAreLost(key: string, value: string)
    requires IsKey(key) && value != "" && !IsQuoteOrSpace(value[0]) && !IsQuoteOrSpace(value[|value| - 1])
    ensures Parse(key + "=" + (['"'] + value + ['"'])) == Some(Entry(key, value))
  {
    hide Parse, IsKey;
    var quoted := ['"'] + value + ['"'];
    ParseOfKey(key, quoted);
    StripOfStripped(quoted);
    assert quoted[1..] == value + ['"'] && (value + ['"'])[..|value|] == value;
    assert DropLeft(quoted, '"') == value + ['"'];
    assert DropRight(value + ['"'], '"') == value;
  }
}
