/**
  The text of a configuration file (lib/b_config.c): its line grammar, and the printer.

  `ParseLine` is what the read loop makes of one line, `Print` is bk_config_print.  A printed pair
  is read back as itself exactly if it is `Printable`, and a whole printed map is read back as
  the same map exactly if all its pairs are.
*/
module ConfigText {

  /** The user's preferences. */
  datatype Prefs = Prefs(separators: string, commentChars: string, includeTag: string)

  /** The values of each key, in order. */
  type Kv = map<string, seq<string>>

  // ----- the library functions the code uses

  predicate IsSpace(c: char) { c == ' ' || c == '\t' || c == '\n' || c == '\r' || c == 11 as char || c == 12 as char }

  /** How many characters of `s` come before the first one in `stop`. */
  function Span(s: string, stop: string): (n: nat)
    ensures n <= |s| && (forall i :: 0 <= i < n ==> s[i] !in stop) && (n < |s| ==> s[n] in stop)
  {
    if s == "" || s[0] in stop then 0 else 1 + Span(s[1..], stop)
  }

  /** bk_string_rip with no terminators given. */
  function Rip(s: string): string { s[..Span(s, "\r\n")] }

  function SkipSpaces(s: string): string
  {
    if s != "" && IsSpace(s[0]) then SkipSpaces(s[1..]) else s
  }

  // ----- one line

  datatype Parsed = Blank | Include(name: string) | Comment | NoSeparator | NoKey | Pair(key: string, value: string)

  /** What the read loop makes of a line. */
  function ParseLine(line: string, prefs: Prefs): Parsed
  {
    var s := Rip(line);
    var start := SkipSpaces(s);
    if start == "" then Blank
    else if prefs.includeTag <= start then Include(SkipSpaces(start[|prefs.includeTag|..]))
    else if start[0] in prefs.commentChars then Comment
    else ParsePair(s, prefs.separators)
  }

  /** The key and the value, with at most one blank dropped on each side of the separator. */
  function ParsePair(s: string, separators: string): Parsed
  {
    var rest := Span(s, separators);
    if rest == |s| then NoSeparator
    else
      var endOfKey := if rest > 0 && IsSpace(s[rest - 1]) then rest - 1 else rest;
      if endOfKey == 0 then NoKey
      else
        var value := s[rest + 1..];
        Pair(s[..endOfKey], if value != "" && IsSpace(value[0]) then value[1..] else value)
  }

  /** The line that bk_config_print writes for a pair, without its newline. */
  function PrintPair(key: string, value: string): string { key + "=" + value }

  /** The pairs that survive being printed and read. */
  predicate Printable(key: string, value: string, prefs: Prefs)
  {
    var start := SkipSpaces(PrintPair(key, value));
    && key != "" && !IsSpace(key[|key| - 1]) && (value != "" ==> !IsSpace(value[0]))
    && '=' in prefs.separators && (forall c :: c in key ==> c !in prefs.separators)
    && (forall c :: c in key || c in value ==> c != '\r' && c != '\n')
    && !(prefs.includeTag <= start) && (start != "" ==> start[0] !in prefs.commentChars)
  }

  lemma {:induction false} SkippedSpace(s: string, i: nat)
    requires i < |s| && IsSpace(s[i])
    ensures SkipSpaces(s[i..]) == SkipSpaces(s[i + 1..])
  {
    assert s[i..][1..] == s[i + 1..];
  }

  /** The index of the first character from `from` on that is not a space. */
  method PastSpaces(s: string, from: nat) returns (i: nat)
    requires from <= |s|
    ensures from <= i <= |s| && s[i..] == SkipSpaces(s[from..])
  {
    i := from;
    while i < |s| && IsSpace(s[i])
      invariant from <= i <= |s|
      invariant SkipSpaces(s[i..]) == SkipSpaces(s[from..])
    {
      SkippedSpace(s, i);
      i := i + 1;
    }
  }

  /** The body of the read loop, moving indices along one line. */
  method ReadLine(line: string, prefs: Prefs) returns (p: Parsed)
    ensures p == ParseLine(line, prefs)
  {
    hide SkipSpaces, Span, IsSpace, ParsePair;
    var s := Rip(line);
    var start := PastSpaces(s, 0);
    assert s[0..] == s;
    if start == |s| {
      return Blank;
    }
    var text := s[start..];
    if prefs.includeTag <= text {
      var rest := PastSpaces(text, |prefs.includeTag|);
      return Include(text[rest..]);
    }
    if text[0] in prefs.commentChars {
      return Comment;
    }
    p := ReadPair(s, prefs.separators);
  }

  method ReadPair(s: string, separators: string) returns (p: Parsed)
    ensures p == ParsePair(s, separators)
  {
    hide Span, IsSpace;
    var rest := Span(s, separators);
    if rest == |s| {
      return NoSeparator;
    }
    var endOfKey := rest;
    if rest > 0 && IsSpace(s[rest - 1]) {
      endOfKey := endOfKey - 1;
    }
    if endOfKey == 0 {
      return NoKey;
    }
    rest := rest + 1;
    if rest < |s| && IsSpace(s[rest]) {
      rest := rest + 1;
    }
    p := Pair(s[..endOfKey], s[rest..]);
  }

  // ----- what each kind of line is read as

  /** The characters that isspace(3) accepts and that do not end a line. */
  predicate IsBlank(c: char) { c in [' ', '\t', 11 as char, 12 as char] }

  predicate Blanks(s: string)
  {
    forall c :: c in s ==> IsBlank(c)
  }

  predicate OneLine(s: string) { '\r' !in s && '\n' !in s }

  lemma KeptByRip(s: string)
    requires OneLine(s)
    ensures Rip(s) == s
  {
    hide Span;
    SpanIs(s, "\r\n", |s|) by {
      forall i | 0 <= i < |s| ensures s[i] !in "\r\n" {
        assert s[i] in s;
      }
    }
  }

  lemma {:induction false} BlanksSkipped(b: string, s: string)
    requires Blanks(b) && (s == "" || !(IsBlank(s[0]) || s[0] in "\r\n"))
    ensures SkipSpaces(b + s) == s
  {
    if b == "" {
      assert b + s == s;
    } else {
      assert b[0] in b;
      assert (b + s)[1..] == b[1..] + s;
      BlanksSkipped(b[1..], s);
    }
  }

  /** An include line names what follows the tag and any blanks, whatever blanks come before the tag. */
  lemma NamedInclude(b0: string, b1: string, name: string, prefs: Prefs)
    requires Blanks(b0) && Blanks(b1) && OneLine(b0 + prefs.includeTag + b1 + name)
    requires prefs.includeTag == "" || !IsBlank(prefs.includeTag[0])
    requires name != "" && !IsBlank(name[0])
    ensures ParseLine(b0 + prefs.includeTag + b1 + name, prefs) == Include(name)
  {
    hide SkipSpaces, Span, IsSpace, ParsePair;
    var tag := prefs.includeTag;
    var line := b0 + tag + b1 + name;
    KeptByRip(line);
    assert name[0] in line by { assert line[|b0 + tag + b1|] == name[0]; }
    assert tag != "" ==> tag[0] in line by { assert tag != "" ==> line[|b0|] == tag[0]; }
    if tag == "" {
      assert line == (b0 + b1) + name;
      BlanksSkipped(b0 + b1, name);
      BlanksSkipped("", name);
      assert "" + name == name && name[0..] == name;
    } else {
      var start := tag + (b1 + name);
      assert line == b0 + start;
      BlanksSkipped(b0, start);
      assert start[|tag|..] == b1 + name;
      BlanksSkipped(b1, name);
    }
  }

  /** A line is blank exactly if nothing but spaces is on it. */
  lemma {:induction false} SkippedToNothing(s: string)
    ensures SkipSpaces(s) == "" <==> forall c :: c in s ==> IsBlank(c) || c in "\r\n"
  {
    if s != "" {
      SkippedToNothing(s[1..]);
      assert s == [s[0]] + s[1..];
      assert IsSpace(s[0]) <==> IsBlank(s[0]) || s[0] in "\r\n";
      assert forall c :: c in s <==> c == s[0] || c in s[1..];
    }
  }

  lemma BlankLine(line: string, prefs: Prefs)
    requires OneLine(line)
    ensures ParseLine(line, prefs) == Blank <==> Blanks(line)
  {
    hide SkipSpaces, Span, IsSpace, ParsePair;
    KeptByRip(line);
    SkippedToNothing(line);
    PairOrNot(line, prefs.separators);
  }

  lemma PairOrNot(s: string, separators: string)
    ensures var p := ParsePair(s, separators); p.NoSeparator? || p.NoKey? || p.Pair?
  {
  }

  /** What begins with a comment character, after any blanks, says nothing, unless it is an include line. */
  lemma CommentLine(b0: string, text: string, prefs: Prefs)
    requires Blanks(b0) && OneLine(b0 + text)
    requires text != "" && text[0] in prefs.commentChars && !IsBlank(text[0])
    requires !(prefs.includeTag <= text)
    ensures ParseLine(b0 + text, prefs) == Comment
  {
    hide SkipSpaces, Span, IsSpace, ParsePair;
    KeptByRip(b0 + text);
    assert text[0] in b0 + text;
    BlanksSkipped(b0, text);
  }

  /** A line that is neither blank nor an include nor a comment is read from its first character on. */
  predicate Speaks(line: string, prefs: Prefs)
  {
    var start := SkipSpaces(line);
    OneLine(line) && start != "" && !(prefs.includeTag <= start) && start[0] !in prefs.commentChars
  }

  /**
    The key goes up to the first separator and the value on from it, whatever other separators it
    has; one blank is dropped on each side if there is one, and no more.
  */
  lemma PairLine(key: string, before: string, sep: char, after: string, value: string, prefs: Prefs)
    requires Speaks(key + before + [sep] + after + value, prefs)
    requires sep in prefs.separators && forall c :: c in key || c in before ==> c !in prefs.separators
    requires Blanks(before) && |before| <= 1 && Blanks(after) && |after| <= 1
    requires key != "" && (before == "" ==> !IsBlank(key[|key| - 1]))
    requires after == "" && value != "" ==> !IsBlank(value[0])
    ensures ParseLine(key + before + [sep] + after + value, prefs) == Pair(key, value)
  {
    hide SkipSpaces, Span, IsSpace, IsBlank, Speaks, Blanks, ParseLine, ParsePair;
    var line := key + before + [sep] + after + value;
    SpeaksFromTheStart(line, prefs);
    var n := |key| + |before|;
    assert line[..n] == key + before && line[n] == sep && line[n + 1..] == after + value;
    SpanIs(line, prefs.separators, n) by {
      forall i | 0 <= i < n ensures line[i] !in prefs.separators {
        assert line[i] == (key + before)[i];
      }
    }
    BlankBefore(line, key, before);
    BlankAfter(after, value, line) by {
      assert value != "" ==> line[|line| - |value|] == value[0];
    }
    PairAt(line, prefs.separators, n);
  }

  lemma SpeaksFromTheStart(line: string, prefs: Prefs)
    requires Speaks(line, prefs)
    ensures ParseLine(line, prefs) == ParsePair(line, prefs.separators) && OneLine(line)
  {
    hide SkipSpaces, Span, ParsePair;
    KeptByRip(line);
  }

  /** One blank less at the front, if there is one. */
  function Dropped(s: string): string { if s != "" && IsSpace(s[0]) then s[1..] else s }

  lemma PairAt(s: string, separators: string, n: nat)
    requires n < |s| && Span(s, separators) == n
    ensures var end := if n > 0 && IsSpace(s[n - 1]) then n - 1 else n;
      ParsePair(s, separators) == if end == 0 then NoKey else Pair(s[..end], Dropped(s[n + 1..]))
  {
    hide Span;
  }

  lemma BlankBefore(line: string, key: string, before: string)
    requires key != "" && key + before <= line && OneLine(line) && Blanks(before) && |before| <= 1
    requires before == "" ==> !IsBlank(key[|key| - 1])
    ensures var n := |key| + |before|; line[..|key|] == key && (IsSpace(line[n - 1]) <==> before != "")
  {
    var n := |key| + |before|;
    assert line[n - 1] == (key + before)[n - 1] && line[n - 1] in line;
    assert before != "" ==> before[0] in before;
    assert line[..|key|] == key;
  }

  lemma BlankAfter(after: string, value: string, line: string)
    requires OneLine(line) && Blanks(after) && |after| <= 1 && (value != "" ==> value[0] in line)
    requires after == "" && value != "" ==> !IsBlank(value[0])
    ensures Dropped(after + value) == value
  {
    if after == "" {
      assert after + value == value;
    } else {
      assert after[0] in after && (after + value)[1..] == value;
    }
  }

  /** Without a separator, or without a key before it, a line gives nothing. */
  lemma NoPairLine(before: string, rest: string, prefs: Prefs)
    requires Speaks(before + rest, prefs) && forall c :: c in before ==> c !in prefs.separators
    ensures rest == "" ==> ParseLine(before + rest, prefs) == NoSeparator
    ensures rest != "" && rest[0] in prefs.separators && |before| <= 1 && Blanks(before)
      ==> ParseLine(before + rest, prefs) == NoKey
  {
    hide SkipSpaces, Span, Speaks, ParseLine, ParsePair;
    var line := before + rest;
    SpeaksFromTheStart(line, prefs);
    if rest == "" || rest[0] in prefs.separators {
      SpanIs(line, prefs.separators, |before|) by {
        assert forall i :: 0 <= i < |before| ==> line[i] == before[i];
      }
      NoPairAt(line, prefs.separators);
      if rest != "" {
        PairAt(line, prefs.separators, |before|);
        assert before != "" ==> line[0] == before[0] && before[0] in before;
      }
    }
  }

  lemma NoPairAt(s: string, separators: string)
    ensures Span(s, separators) == |s| ==> ParsePair(s, separators) == NoSeparator
  {
  }

  // ----- printing and reading one pair

  lemma {:induction false} SpanIs(s: string, stop: string, n: nat)
    requires n <= |s| && (forall i :: 0 <= i < n ==> s[i] !in stop) && (n < |s| ==> s[n] in stop)
    ensures Span(s, stop) == n
  {
    if n > 0 {
      SpanIs(s[1..], stop, n - 1);
    }
  }

  lemma {:induction false} SkipSpacesNonempty(s: string, i: nat)
    requires i < |s| && !IsSpace(s[i])
    ensures SkipSpaces(s) != ""
  {
    if IsSpace(s[0]) {
      SkipSpacesNonempty(s[1..], i - 1);
    }
  }

  /** A pair read from a line is shorter than the line, by the separator and what was dropped. */
  lemma ParsedIsShorter(s: string, separators: string)
    requires ParsePair(s, separators).Pair?
    ensures var p := ParsePair(s, separators); var rest := Span(s, separators);
      && |p.key| <= rest && |p.value| <= |s| - rest - 1
      && (|p.key| == rest ==> p.key == s[..rest] && !IsSpace(s[rest - 1]))
      && (|p.value| == |s| - rest - 1 ==> p.value == s[rest + 1..] && (p.value != "" ==> !IsSpace(p.value[0])))
  {
  }

  /** The printed line is read as the same pair exactly if the pair is printable. */
  lemma PrintedPairReadBack(key: string, value: string, prefs: Prefs)
    ensures ParseLine(PrintPair(key, value), prefs) == Pair(key, value) <==> Printable(key, value, prefs)
  {
    if Printable(key, value, prefs) {
      PrintableReadBack(key, value, prefs);
    } else if ParseLine(PrintPair(key, value), prefs) == Pair(key, value) {
      ReadBackPrintable(key, value, prefs);
    }
  }

  lemma PrintableReadBack(key: string, value: string, prefs: Prefs)
    requires Printable(key, value, prefs)
    ensures ParseLine(PrintPair(key, value), prefs) == Pair(key, value)
  {
    hide SkipSpaces, Span, IsSpace;
    var line := PrintPair(key, value);
    SpanIs(line, "\r\n", |line|) by {
      forall i | 0 <= i < |line| ensures line[i] !in "\r\n" {
        assert line[i] in key || line[i] == '=' || line[i] in value;
      }
    }
    assert Rip(line) == line;
    EqualsIsNoSpace();
    SkipSpacesNonempty(line, |key|);
    assert forall i :: 0 <= i < |key| ==> line[i] == key[i];
    SpanIs(line, prefs.separators, |key|);
    assert line[..|key|] == key && line[|key| + 1..] == value;
  }

  lemma EqualsIsNoSpace()
    ensures !IsSpace('=')
  {
  }

  lemma ReadBackPrintable(key: string, value: string, prefs: Prefs)
    requires ParseLine(PrintPair(key, value), prefs) == Pair(key, value)
    ensures Printable(key, value, prefs)
  {
    hide SkipSpaces, Span, IsSpace;
    var line := PrintPair(key, value);
    var s := Rip(line);
    assert ParsePair(s, prefs.separators) == Pair(key, value);
    ParsedIsShorter(s, prefs.separators);
    assert s == line;
    assert Span(line, prefs.separators) == |key|;
    assert forall i :: 0 <= i < |key| ==> line[i] == key[i];
    assert line[|key|] == '=';
    forall c | c in key || c in value ensures c != '\r' && c != '\n' {
      assert c in line;
      assert Span(line, "\r\n") == |line|;
      assert '\r' in "\r\n" && '\n' in "\r\n";
    }
  }

  // ----- printing and reading a whole map

  /** config_manage with a new value: the value goes to the end of its key's values. */
  function Add(kv: Kv, key: string, value: string): Kv
  {
    kv[key := (if key in kv then kv[key] else []) + [value]]
  }

  /** The lines that fgets returns: each with its newline, except perhaps the last. */
  function Lines(text: string): seq<string>
    decreases |text|
  {
    if text == "" then []
    else
      var n := Span(text, "\n");
      if n == |text| then [text] else [text[..n + 1]] + Lines(text[n + 1..])
  }

  /** Reading lines that include no other file. */
  function ReadLines(lines: seq<string>, prefs: Prefs, kv: Kv): Kv
  {
    if lines == [] then kv
    else
      var p := ParseLine(lines[0], prefs);
      ReadLines(lines[1..], prefs, if p.Pair? then Add(kv, p.key, p.value) else kv)
  }

  /** The pairs of one key, in order. */
  function KeyPairs(key: string, values: seq<string>): seq<(string, string)>
  {
    if values == [] then [] else [(key, values[0])] + KeyPairs(key, values[1..])
  }

  /** The pairs of the keys in `order`. */
  function Pairs(kv: Kv, order: seq<string>): seq<(string, string)>
    requires forall k :: k in order ==> k in kv
  {
    if order == [] then [] else KeyPairs(order[0], kv[order[0]]) + Pairs(kv, order[1..])
  }

  function PrintPairs(ps: seq<(string, string)>): string
  {
    if ps == [] then "" else PrintPair(ps[0].0, ps[0].1) + "\n" + PrintPairs(ps[1..])
  }

  /** bk_config_print, the keys coming in the order of the key tree. */
  function Print(kv: Kv, order: seq<string>): string
    requires forall k :: k in order ==> k in kv
  {
    PrintPairs(Pairs(kv, order))
  }

  function AddAll(kv: Kv, ps: seq<(string, string)>): Kv
    decreases |ps|
  {
    if ps == [] then kv else AddAll(Add(kv, ps[0].0, ps[0].1), ps[1..])
  }

  lemma NewlineDropped(line: string, prefs: Prefs)
    ensures ParseLine(line + "\n", prefs) == ParseLine(line, prefs)
  {
    hide Span;
    var n := Span(line, "\r\n");
    assert n == |line| ==> (line + "\n")[n] in "\r\n";
    SpanIs(line + "\n", "\r\n", n);
    assert (line + "\n")[..n] == line[..n];
  }

  lemma FirstLine(line: string, rest: string)
    requires '\n' !in line
    ensures Lines(line + "\n" + rest) == [line + "\n"] + Lines(rest)
  {
    hide Span;
    var text := line + "\n" + rest;
    SpanIs(text, "\n", |line|) by {
      assert forall i :: 0 <= i < |line| ==> text[i] == line[i];
      assert text[|line|] == '\n';
    }
    assert text[..|line| + 1] == line + "\n" && text[|line| + 1..] == rest;
  }

  /** Printed pairs are read in their order and added one by one. */
  lemma {:induction false} PairsReadBack(ps: seq<(string, string)>, prefs: Prefs, kv: Kv)
    requires forall i :: 0 <= i < |ps| ==> Printable(ps[i].0, ps[i].1, prefs)
    ensures ReadLines(Lines(PrintPairs(ps)), prefs, kv) == AddAll(kv, ps)
    ensures forall i :: 0 <= i < |Lines(PrintPairs(ps))| ==> ParseLine(Lines(PrintPairs(ps))[i], prefs).Pair?
  {
    if ps != [] {
      hide ParseLine, Add;
      var (k, v) := ps[0];
      var line := PrintPair(k, v);
      assert '\n' !in line by { NoNewline(k, v, prefs); }
      FirstLine(line, PrintPairs(ps[1..]));
      NewlineDropped(line, prefs);
      PrintableReadBack(k, v, prefs);
      PairsReadBack(ps[1..], prefs, Add(kv, k, v));
      assert Lines(PrintPairs(ps))[1..] == Lines(PrintPairs(ps[1..]));
    }
  }

  lemma NoNewline(key: string, value: string, prefs: Prefs)
    requires Printable(key, value, prefs)
    ensures '\n' !in PrintPair(key, value)
  {
  }

  lemma {:induction false} AddAllConcat(kv: Kv, ps: seq<(string, string)>, qs: seq<(string, string)>)
    ensures AddAll(kv, ps + qs) == AddAll(AddAll(kv, ps), qs)
    decreases |ps|
  {
    if ps == [] {
      assert ps + qs == qs;
    } else {
      assert (ps + qs)[1..] == ps[1..] + qs;
      AddAllConcat(Add(kv, ps[0].0, ps[0].1), ps[1..], qs);
    }
  }

  lemma {:induction false} AddAllOfKey(kv: Kv, key: string, values: seq<string>)
    requires values != []
    ensures AddAll(kv, KeyPairs(key, values)) == kv[key := (if key in kv then kv[key] else []) + values]
    decreases |values|
  {
    var before := if key in kv then kv[key] else [];
    assert before + values == before + [values[0]] + values[1..];
    assert KeyPairs(key, values)[1..] == KeyPairs(key, values[1..]);
    if values[1..] == [] {
      assert before + values == before + [values[0]];
    } else {
      AddAllOfKey(Add(kv, key, values[0]), key, values[1..]);
    }
  }

  /** The part of the map under the keys in `order`. */
  function Restricted(kv: Kv, order: seq<string>): Kv
  {
    map k | k in kv && k in order :: kv[k]
  }

  lemma RestrictedToMore(kv: Kv, key: string, order: seq<string>)
    requires key in kv
    ensures Restricted(kv, [key] + order) == Restricted(kv, order)[key := kv[key]]
    ensures key !in order ==> key !in Restricted(kv, order)
  {
  }

  lemma UpdateMoved(m: Kv, n: Kv, key: string, values: seq<string>)
    requires key !in n
    ensures m[key := values] + n == m + n[key := values]
  {
  }

  lemma {:induction false} AddAllPairs(m: Kv, kv: Kv, order: seq<string>)
    requires forall k :: k in order ==> k in kv && k !in m
    requires forall k :: k in kv ==> kv[k] != []
    requires forall i, j :: 0 <= i < j < |order| ==> order[i] != order[j]
    ensures AddAll(m, Pairs(kv, order)) == m + Restricted(kv, order)
    decreases |order|
  {
    if order == [] {
      assert Restricted(kv, order) == map[];
    } else {
      hide AddAll, KeyPairs, Restricted;
      var k, rest := order[0], order[1..];
      AddAllConcat(m, KeyPairs(k, kv[k]), Pairs(kv, rest));
      AddAllOfKey(m, k, kv[k]);
      assert [] + kv[k] == kv[k];
      assert k !in rest by {
        assert forall j :: 0 <= j < |rest| ==> rest[j] == order[j + 1];
      }
      AddAllPairs(m[k := kv[k]], kv, rest);
      RestrictedToMore(kv, k, rest);
      assert order == [k] + rest;
      UpdateMoved(m, Restricted(kv, rest), k, kv[k]);
    }
  }

  /** Every pair of the map survives on its own. */
  ghost predicate AllPrintable(kv: Kv, prefs: Prefs)
  {
    forall k, i :: k in kv && 0 <= i < |kv[k]| ==> Printable(k, kv[k][i], prefs)
  }

  /** `order` names every key of the map once, and no key is without values. */
  ghost predicate Enumerates(order: seq<string>, kv: Kv)
  {
    && (forall k :: k in order <==> k in kv) && (forall k :: k in kv ==> kv[k] != [])
    && (forall i, j :: 0 <= i < j < |order| ==> order[i] != order[j])
  }

  lemma {:induction false} KeyPairsPrintable(key: string, values: seq<string>, prefs: Prefs)
    requires forall i :: 0 <= i < |values| ==> Printable(key, values[i], prefs)
    ensures forall i :: 0 <= i < |KeyPairs(key, values)| ==>
      Printable(KeyPairs(key, values)[i].0, KeyPairs(key, values)[i].1, prefs)
  {
    hide Printable;
    if values != [] {
      KeyPairsPrintable(key, values[1..], prefs);
    }
  }

  lemma {:induction false} PairsPrintable(kv: Kv, order: seq<string>, prefs: Prefs)
    requires (forall k :: k in order ==> k in kv) && AllPrintable(kv, prefs)
    ensures forall i :: 0 <= i < |Pairs(kv, order)| ==>
      Printable(Pairs(kv, order)[i].0, Pairs(kv, order)[i].1, prefs)
  {
    hide Printable;
    if order != [] {
      KeyPairsPrintable(order[0], kv[order[0]], prefs);
      PairsPrintable(kv, order[1..], prefs);
    }
  }

  // ----- the converse: a map that comes back had only printable pairs

  type KeyValue = (string, string)

  /** What a pair takes of the file, with its separator and its newline. */
  function Size(p: KeyValue): nat { |p.0| + |p.1| + 2 }

  function KeySize(p: KeyValue): nat { |p.0| }

  function Total(size: KeyValue -> nat, ps: seq<KeyValue>): nat
  {
    if ps == [] then 0 else size(ps[0]) + Total(size, ps[1..])
  }

  lemma {:induction false} TotalConcat(size: KeyValue -> nat, ps: seq<KeyValue>, qs: seq<KeyValue>)
    ensures Total(size, ps + qs) == Total(size, ps) + Total(size, qs)
  {
    if ps == [] {
      assert ps + qs == qs;
    } else {
      assert (ps + qs)[1..] == ps[1..] + qs;
      TotalConcat(size, ps[1..], qs);
    }
  }

  lemma FirstOut(p: KeyValue, rest: seq<KeyValue>, a: seq<KeyValue>, b: seq<KeyValue>)
    requires multiset([p] + rest) == multiset(a + ([p] + b))
    ensures multiset(rest) == multiset(a + b)
  {
    assert multiset([p] + rest) == multiset{p} + multiset(rest);
    assert multiset(a + ([p] + b)) == multiset{p} + multiset(a + b);
    assert multiset(rest) == multiset([p] + rest) - multiset{p};
  }

  /** A total does not depend on the order. */
  lemma {:induction false} TotalOfMultiset(size: KeyValue -> nat, ps: seq<KeyValue>, qs: seq<KeyValue>)
    requires multiset(ps) == multiset(qs)
    ensures |ps| == |qs| && Total(size, ps) == Total(size, qs)
  {
    if ps == [] {
      assert |multiset(qs)| == 0;
    } else {
      assert ps[0] in multiset(ps);
      assert ps[0] in multiset(qs);
      var i :| 0 <= i < |qs| && qs[i] == ps[0];
      var a, b := qs[..i], qs[i + 1..];
      var p, rest := ps[0], ps[1..];
      assert qs == a + ([p] + b) && ps == [p] + rest;
      FirstOut(p, rest, a, b);
      TotalOfMultiset(size, rest, a + b);
      TotalConcat(size, a, [p] + b);
      TotalConcat(size, a, b);
    }
  }

  /** How often a map has a value under a key. */
  function Count(kv: Kv, key: string, value: string): nat
  {
    if key in kv then multiset(kv[key])[value] else 0
  }

  lemma {:induction false} CountAdded(kv: Kv, ps: seq<KeyValue>, key: string, value: string)
    ensures Count(AddAll(kv, ps), key, value) == Count(kv, key, value) + multiset(ps)[(key, value)]
    decreases |ps|
  {
    if ps != [] {
      assert ps == [ps[0]] + ps[1..];
      CountAdded(Add(kv, ps[0].0, ps[0].1), ps[1..], key, value);
    }
  }

  /** A map that was built from nothing tells its pairs. */
  lemma SameMapSamePairs(ps: seq<KeyValue>, qs: seq<KeyValue>)
    requires AddAll(map[], ps) == AddAll(map[], qs)
    ensures multiset(ps) == multiset(qs)
  {
    forall p: KeyValue ensures multiset(ps)[p] == multiset(qs)[p] {
      CountAdded(map[], ps, p.0, p.1);
      CountAdded(map[], qs, p.0, p.1);
    }
    SameCounts(multiset(ps), multiset(qs));
  }

  lemma SameCounts<T>(a: multiset<T>, b: multiset<T>)
    requires forall x :: a[x] == b[x]
    ensures a == b
  {
  }

  /** The pairs that are read from these lines. */
  function PairsRead(lines: seq<string>, prefs: Prefs): seq<KeyValue>
  {
    if lines == [] then []
    else
      var p := ParseLine(lines[0], prefs);
      (if p.Pair? then [(p.key, p.value)] else []) + PairsRead(lines[1..], prefs)
  }

  lemma {:induction false} ReadLinesAdds(lines: seq<string>, prefs: Prefs, kv: Kv)
    ensures ReadLines(lines, prefs, kv) == AddAll(kv, PairsRead(lines, prefs))
  {
    hide ParseLine;
    if lines != [] {
      var p := ParseLine(lines[0], prefs);
      var rest := PairsRead(lines[1..], prefs);
      ReadLinesAdds(lines[1..], prefs, if p.Pair? then Add(kv, p.key, p.value) else kv);
      if p.Pair? {
        assert PairsRead(lines, prefs)[1..] == rest;
      } else {
        assert PairsRead(lines, prefs) == rest;
      }
    }
  }

  /** Nothing of the line is dropped but the separator and the newline. */
  ghost predicate Whole(line: string, prefs: Prefs)
  {
    var p := ParseLine(line, prefs);
    p.Pair? && Size((p.key, p.value)) == |line|
  }

  predicate Ends(line: string) { line != "" && line[|line| - 1] == '\n' }

  lemma PairFits(line: string, prefs: Prefs)
    requires Ends(line) && ParseLine(line, prefs).Pair?
    ensures var p := ParseLine(line, prefs);
      Size((p.key, p.value)) <= |line| && forall c :: c in p.key ==> c !in prefs.separators
    ensures var p := ParseLine(line, prefs);
      Whole(line, prefs) ==>
        && |p.key| == Span(line[..|line| - 1], prefs.separators)
        && p.key == line[..|p.key|] && p.value == line[|p.key| + 1..|line| - 1]
  {
    hide SkipSpaces, Span, IsSpace;
    var s := Rip(line);
    assert |s| < |line| by { assert '\n' in "\r\n"; }
    assert ParsePair(s, prefs.separators) == ParseLine(line, prefs);
    ParsedIsShorter(s, prefs.separators);
    if |s| == |line| - 1 {
      assert s == line[..|line| - 1];
    }
  }

  function Length(lines: seq<string>): nat
  {
    if lines == [] then 0 else |lines[0]| + Length(lines[1..])
  }

  /** The pairs that are read take no more than the lines, and as much only if each line is whole. */
  lemma {:induction false} PairsFit(lines: seq<string>, prefs: Prefs)
    requires forall i :: 0 <= i < |lines| ==> Ends(lines[i])
    ensures Total(Size, PairsRead(lines, prefs)) <= Length(lines)
    ensures Total(Size, PairsRead(lines, prefs)) == Length(lines) ==>
      && |PairsRead(lines, prefs)| == |lines|
      && forall i :: 0 <= i < |lines| ==>
           Whole(lines[i], prefs) && PairsRead(lines, prefs)[i] == PairOf(lines[i], prefs)
  {
    hide ParseLine;
    if lines != [] {
      PairsFit(lines[1..], prefs);
      assert forall i :: 1 <= i < |lines| ==> lines[i] == lines[1..][i - 1];
      var p, rest := ParseLine(lines[0], prefs), PairsRead(lines[1..], prefs);
      if p.Pair? {
        PairFits(lines[0], prefs);
        TotalConcat(Size, [(p.key, p.value)], rest);
        assert Total(Size, [(p.key, p.value)]) == Size((p.key, p.value)) by {
          assert [(p.key, p.value)][1..] == [];
        }
      } else {
        assert PairsRead(lines, prefs) == rest;
      }
    }
  }

  function PairOf(line: string, prefs: Prefs): KeyValue
  {
    var p := ParseLine(line, prefs);
    if p.Pair? then (p.key, p.value) else ("", "")
  }

  /** The first line of a text that is closed by a newline, and what follows. */
  lemma FirstNewline(text: string) returns (line: string, rest: string)
    requires Ends(text)
    ensures text == line + "\n" + rest && '\n' !in line && (rest == "" || Ends(rest))
  {
    var n := Span(text, "\n");
    assert n < |text| by { assert text[|text| - 1] in "\n"; }
    line, rest := text[..n], text[n + 1..];
    assert text[n] in "\n";
    assert text == line + "\n" + rest;
    assert forall i :: 0 <= i < n ==> line[i] == text[i] && text[i] !in "\n";
  }

  /** The lines of a text that is closed by a newline. */
  lemma {:induction false} LinesOfText(text: string)
    requires text == "" || Ends(text)
    ensures Length(Lines(text)) == |text| && forall i :: 0 <= i < |Lines(text)| ==> Ends(Lines(text)[i])
    decreases |text|
  {
    hide Lines;
    if text == "" {
      NoLines();
    } else {
      var line, rest := FirstNewline(text);
      FirstLine(line, rest);
      LinesOfText(rest);
      assert Lines(text)[1..] == Lines(rest);
    }
  }

  /** A line and a text: as many lines as the two have, the first of them one exactly if it has no newline inside. */
  lemma {:induction false} LinesSplit(line: string, rest: string)
    ensures |Lines(line + "\n" + rest)| >= 1 + |Lines(rest)|
    ensures |Lines(line + "\n" + rest)| == 1 + |Lines(rest)| ==> '\n' !in line
    decreases |line|
  {
    var n := Span(line, "\n");
    if n == |line| {
      assert '\n' !in line by {
        assert forall i :: 0 <= i < n ==> line[i] !in "\n";
      }
      FirstLine(line, rest);
    } else {
      var a, b := line[..n], line[n + 1..];
      assert line == a + "\n" + b;
      assert line + "\n" + rest == a + "\n" + (b + "\n" + rest);
      FirstLine(a, b + "\n" + rest);
      LinesSplit(b, rest);
    }
  }

  /** As many lines as pairs are printed only if each pair is one line. */
  lemma {:induction false} LinesOfPairs(ps: seq<KeyValue>)
    ensures var lines := Lines(PrintPairs(ps));
      && |lines| >= |ps|
      && (|lines| == |ps| ==> forall i :: 0 <= i < |ps| ==> lines[i] == PrintPair(ps[i].0, ps[i].1) + "\n")
  {
    hide Lines;
    if ps != [] {
      var line, rest := PrintPair(ps[0].0, ps[0].1), PrintPairs(ps[1..]);
      LinesOfPairs(ps[1..]);
      LinesSplit(line, rest);
      if '\n' !in line {
        FirstLine(line, rest);
      }
    } else {
      assert Lines("") == [] by { NoLines(); }
    }
  }

  lemma NoLines()
    ensures Lines("") == []
  {
  }

  lemma {:induction false} PrintedLength(ps: seq<KeyValue>)
    ensures |PrintPairs(ps)| == Total(Size, ps) && (ps == [] || Ends(PrintPairs(ps)))
  {
    if ps != [] {
      PrintedLength(ps[1..]);
    }
  }

  lemma {:induction false} EqualTotals(ps: seq<KeyValue>, qs: seq<KeyValue>)
    requires |ps| == |qs| && forall i :: 0 <= i < |ps| ==> |ps[i].0| <= |qs[i].0|
    ensures Total(KeySize, ps) <= Total(KeySize, qs)
    ensures Total(KeySize, ps) == Total(KeySize, qs) ==> forall i :: 0 <= i < |ps| ==> |ps[i].0| == |qs[i].0|
  {
    if ps != [] {
      EqualTotals(ps[1..], qs[1..]);
      assert forall i :: 1 <= i < |ps| ==> ps[i] == ps[1..][i - 1] && qs[i] == qs[1..][i - 1];
    }
  }

  lemma SpanPast(s: string, stop: string, n: nat)
    requires n <= |s| && forall i :: 0 <= i < n ==> s[i] !in stop
    ensures Span(s, stop) >= n
  {
    var m := Span(s, stop);
    assert m < |s| ==> s[m] in stop;
  }

  /** A printed line that is read whole: its key is no shorter than the one printed, if that has no separator. */
  lemma KeyNotShorter(key: string, value: string, prefs: Prefs)
    requires Whole(PrintPair(key, value) + "\n", prefs) && forall c :: c in key ==> c !in prefs.separators
    ensures var p := PairOf(PrintPair(key, value) + "\n", prefs);
      |key| <= |p.0| && (|key| == |p.0| ==> p == (key, value))
  {
    hide SkipSpaces, Span, IsSpace, ParseLine;
    var line := PrintPair(key, value) + "\n";
    PairFits(line, prefs);
    var s := line[..|line| - 1];
    assert s == PrintPair(key, value);
    SpanPast(s, prefs.separators, |key|) by {
      assert forall i :: 0 <= i < |key| ==> s[i] == key[i];
    }
    assert line[..|key|] == key && line[|key| + 1..|line| - 1] == value;
  }

  /** If as many pairs are read as were printed, and they are the same but for the order, all are printable. */
  lemma SamePairsPrintable(ps: seq<KeyValue>, prefs: Prefs)
    requires multiset(PairsRead(Lines(PrintPairs(ps)), prefs)) == multiset(ps)
    ensures forall i :: 0 <= i < |ps| ==> Printable(ps[i].0, ps[i].1, prefs)
  {
    hide ParseLine, Printable, Lines, PairsRead, PrintPairs, PrintPair, Whole, PairOf, Ends;
    var lines := Lines(PrintPairs(ps));
    var read := PairsRead(lines, prefs);
    TotalOfMultiset(Size, read, ps);
    TotalOfMultiset(KeySize, read, ps);
    PrintedLength(ps);
    LinesOfPrinted(ps);
    PairsFit(lines, prefs);
    LinesOfPairs(ps);
    forall i | 0 <= i < |ps| ensures |ps[i].0| <= |read[i].0| && (|ps[i].0| == |read[i].0| ==> read[i] == ps[i]) {
      assert ps[i] in multiset(ps) && ps[i] in multiset(read);
      KeyIsRead(lines, ps[i], prefs);
      KeyNotShorter(ps[i].0, ps[i].1, prefs);
    }
    EqualTotals(ps, read);
    forall i | 0 <= i < |ps| ensures Printable(ps[i].0, ps[i].1, prefs) {
      assert read[i] == ps[i];
      WholePrintable(ps[i].0, ps[i].1, prefs);
    }
  }

  lemma LinesOfPrinted(ps: seq<KeyValue>)
    ensures Length(Lines(PrintPairs(ps))) == Total(Size, ps)
    ensures forall i :: 0 <= i < |Lines(PrintPairs(ps))| ==> Ends(Lines(PrintPairs(ps))[i])
  {
    PrintedLength(ps);
    LinesOfText(PrintPairs(ps));
  }

  /** A key that is read has no separator. */
  lemma {:induction false} KeyIsRead(lines: seq<string>, p: KeyValue, prefs: Prefs)
    requires (forall i :: 0 <= i < |lines| ==> Ends(lines[i])) && p in PairsRead(lines, prefs)
    ensures forall c :: c in p.0 ==> c !in prefs.separators
  {
    hide ParseLine;
    if lines != [] {
      if ParseLine(lines[0], prefs).Pair? {
        PairFits(lines[0], prefs);
      }
      if p in PairsRead(lines[1..], prefs) {
        KeyIsRead(lines[1..], p, prefs);
      }
    }
  }

  lemma WholePrintable(key: string, value: string, prefs: Prefs)
    requires Whole(PrintPair(key, value) + "\n", prefs) && PairOf(PrintPair(key, value) + "\n", prefs) == (key, value)
    ensures Printable(key, value, prefs)
  {
    hide ParseLine, Printable;
    NewlineDropped(PrintPair(key, value), prefs);
    ReadBackPrintable(key, value, prefs);
  }

  lemma {:induction false} EveryPair(kv: Kv, order: seq<string>, key: string, i: nat)
    requires (forall k :: k in order ==> k in kv) && key in order && i < |kv[key]|
    ensures (key, kv[key][i]) in Pairs(kv, order)
  {
    if key == order[0] {
      EveryKeyPair(key, kv[key], i);
    } else {
      EveryPair(kv, order[1..], key, i);
    }
  }

  lemma {:induction false} EveryKeyPair(key: string, values: seq<string>, i: nat)
    requires i < |values|
    ensures (key, values[i]) in KeyPairs(key, values)
  {
    if i > 0 {
      EveryKeyPair(key, values[1..], i - 1);
    }
  }

  /** What was printed comes back only if every pair would on its own. */
  lemma ReadBackAllPrintable(kv: Kv, order: seq<string>, prefs: Prefs)
    requires Enumerates(order, kv) && ReadLines(Lines(Print(kv, order)), prefs, map[]) == kv
    ensures AllPrintable(kv, prefs)
  {
    hide Printable, ReadLines, Lines, PrintPairs, Pairs, AddAll, PairsRead;
    var ps, lines := Pairs(kv, order), Lines(Print(kv, order));
    ReadLinesAdds(lines, prefs, map[]);
    AddAllPairs(map[], kv, order);
    assert map[] + Restricted(kv, order) == kv;
    SameMapSamePairs(PairsRead(lines, prefs), ps);
    SamePairsPrintable(ps, prefs);
    forall k, i: nat | k in kv && i < |kv[k]| ensures Printable(k, kv[k][i], prefs) {
      EveryPair(kv, order, k, i);
    }
  }

  /**
    Reading what was printed rebuilds the map, in whatever order the keys were printed, exactly if
    each of its pairs is printable: no two failures of single pairs ever make up for each other.
  */
  lemma PrintedMapReadBack(kv: Kv, order: seq<string>, prefs: Prefs)
    requires Enumerates(order, kv)
    ensures ReadLines(Lines(Print(kv, order)), prefs, map[]) == kv <==> AllPrintable(kv, prefs)
    ensures AllPrintable(kv, prefs) ==>
      forall i :: 0 <= i < |Lines(Print(kv, order))| ==> ParseLine(Lines(Print(kv, order))[i], prefs).Pair?
  {
    hide Printable, AddAll, ReadLines, AllPrintable;
    if AllPrintable(kv, prefs) {
      PrintablesReadBack(kv, order, prefs);
    } else if ReadLines(Lines(Print(kv, order)), prefs, map[]) == kv {
      ReadBackAllPrintable(kv, order, prefs);
    }
  }

  lemma PrintablesReadBack(kv: Kv, order: seq<string>, prefs: Prefs)
    requires Enumerates(order, kv) && AllPrintable(kv, prefs)
    ensures ReadLines(Lines(Print(kv, order)), prefs, map[]) == kv
    ensures forall i :: 0 <= i < |Lines(Print(kv, order))| ==> ParseLine(Lines(Print(kv, order))[i], prefs).Pair?
  {
    hide Printable, AddAll, ReadLines;
    PairsPrintable(kv, order, prefs);
    PairsReadBack(Pairs(kv, order), prefs, map[]);
    AddAllPairs(map[], kv, order);
    assert map[] + Restricted(kv, order) == kv;
  }
}
