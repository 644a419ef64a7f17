/** iCalendar text: folded lines, escaped values, and single properties. */
module ICalText {
  import opened Wrappers
  import opened Text

  // ----- lines -----

  /** strings.ReplaceAll(s, "\r\n", "\n"). */
  function Normalized(s: string): string {
    if s == "" then ""
    else if |s| >= 2 && s[0] == '\r' && s[1] == '\n' then "\n" + Normalized(s[2..])
    else [s[0]] + Normalized(s[1..])
  }

  /** strings.Split on one character. */
  function SplitOn(s: string, c: char): (parts: seq<string>)
    ensures parts != []
  {
    var i := IndexOf(s, c);
    if i < 0 then [s] else [s[..i]] + SplitOn(s[i + 1..], c)
  }

  predicate Continues(line: string) { line != "" && (line[0] == ' ' || line[0] == '\t') }

  /** The logical lines: a physical line that starts with a blank or tab belongs to the one before. */
  function Unfold(lines: seq<string>): (out: seq<string>)
    ensures lines != [] ==> out != []
  {
    if lines == [] then []
    else
      var line, before := lines[|lines| - 1], Unfold(lines[..|lines| - 1]);
      if |lines| > 1 && Continues(line) then before[|before| - 1 := before[|before| - 1] + line[1..]]
      else before + [line]
  }

  /** What one more physical line does to the logical ones. */
  function Unfolded(out: seq<string>, first: bool, line: string): seq<string>
    requires first || out != []
  {
    if !first && Continues(line) then out[|out| - 1 := out[|out| - 1] + line[1..]] else out + [line]
  }

  lemma UnfoldStep(lines: seq<string>, i: nat)
    requires i < |lines|
    ensures i > 0 ==> Unfold(lines[..i]) != []
    ensures Unfold(lines[..i + 1]) == Unfolded(Unfold(lines[..i]), i == 0, lines[i])
  {
    var front := lines[..i + 1];
    assert front[..|front| - 1] == lines[..i] && front[|front| - 1] == lines[i];
  }

  method UnfoldICal(data: string) returns (out: seq<string>)
    ensures out == Unfold(SplitOn(Normalized(data), '\n'))
  {
    var lines := SplitOn(Normalized(data), '\n');
    out := UnfoldLines(lines);
  }

  method UnfoldLines(lines: seq<string>) returns (out: seq<string>)
    ensures out == Unfold(lines)
  {
    out := [];
    for i := 0 to |lines|
      invariant out == Unfold(lines[..i])
    {
      UnfoldStep(lines, i);
      var line := lines[i];
      if i > 0 && Continues(line) {
        out := out[|out| - 1 := out[|out| - 1] + line[1..]];
      } else {
        out := out + [line];
      }
    }
    assert lines[..|lines|] == lines;
  }

  // ----- unfolding undoes folding -----

  /** A piece of a content line; what ends it, CRLF or LF alone; what starts the piece after it. */
  datatype Piece = Piece(text: string, crlf: bool, tab: bool)

  function Break(p: Piece): string { if p.crlf then "\r\n" else "\n" }

  function Blank(p: Piece): string { if p.tab then "\t" else " " }

  predicate OneLine(s: string) { Lacks(s, '\r') && Lacks(s, '\n') }

  /** A content line cut into pieces anywhere; the first piece starts like the line. */
  predicate Cut(pieces: seq<Piece>) {
    && pieces != [] && !Continues(pieces[0].text)
    && forall k :: 0 <= k < |pieces| ==> OneLine(pieces[k].text)
  }

  function Whole(pieces: seq<Piece>): string {
    if pieces == [] then "" else Whole(pieces[..|pieces| - 1]) + pieces[|pieces| - 1].text
  }

  /** The physical lines of a cut line. */
  function Physical(pieces: seq<Piece>): seq<string> {
    if pieces == [] then []
    else if |pieces| == 1 then [pieces[0].text]
    else Physical(pieces[..|pieces| - 1]) + [Blank(pieces[|pieces| - 2]) + pieces[|pieces| - 1].text]
  }

  function AllPhysical(folded: seq<seq<Piece>>): seq<string> {
    if folded == [] then [] else AllPhysical(folded[..|folded| - 1]) + Physical(folded[|folded| - 1])
  }

  function Lines(folded: seq<seq<Piece>>): seq<string> {
    seq(|folded|, k requires 0 <= k < |folded| => Whole(folded[k]))
  }

  /** A physical line with its break. */
  datatype Row = Row(text: string, crlf: bool)

  function Rendered(rows: seq<Row>): string {
    if rows == [] then "" else rows[0].text + (if rows[0].crlf then "\r\n" else "\n") + Rendered(rows[1..])
  }

  function Texts(rows: seq<Row>): seq<string> { seq(|rows|, k requires 0 <= k < |rows| => rows[k].text) }

  lemma {:induction false} NormalizedText(a: string, x: string)
    requires OneLine(a)
    ensures Normalized(a + x) == a + Normalized(x)
  {
    if a == "" {
      assert a + x == x;
    } else {
      assert (a + x)[1..] == a[1..] + x;
      NormalizedText(a[1..], x);
      assert a == [a[0]] + a[1..];
    }
  }

  lemma NormalizedRow(a: string, crlf: bool, x: string)
    requires OneLine(a)
    ensures Normalized(a + (if crlf then "\r\n" else "\n") + x) == a + "\n" + Normalized(x)
  {
    var b := if crlf then "\r\n" else "\n";
    assert a + b + x == a + (b + x);
    NormalizedText(a, b + x);
    assert (b + x)[|b|..] == x;
    assert Normalized(b + x) == "\n" + Normalized(x);
  }

  lemma IndexAfter(a: string, c: char, x: string)
    requires Lacks(a, c)
    ensures IndexOf(a + [c] + x, c) == |a|
    ensures (a + [c] + x)[..|a|] == a && (a + [c] + x)[|a| + 1..] == x
  {
    var s := a + [c] + x;
    assert s[|a|] == c && forall i :: 0 <= i < |a| ==> s[i] == a[i];
  }

  lemma SplitFirst(a: string, c: char, x: string)
    requires Lacks(a, c)
    ensures SplitOn(a + [c] + x, c) == [a] + SplitOn(x, c)
  {
    IndexAfter(a, c, x);
  }

  lemma RowSplits(row: Row, rest: string)
    requires OneLine(row.text)
    ensures SplitOn(Normalized(row.text + (if row.crlf then "\r\n" else "\n") + rest), '\n') ==
            [row.text] + SplitOn(Normalized(rest), '\n')
  {
    NormalizedRow(row.text, row.crlf, rest);
    assert "\n" == ['\n'];
    SplitFirst(row.text, '\n', Normalized(rest));
  }

  lemma SplitNone(a: string, c: char)
    requires Lacks(a, c)
    ensures SplitOn(a, c) == [a]
  {
  }

  lemma TextsCons(rows: seq<Row>)
    requires rows != []
    ensures Texts(rows) + [""] == [rows[0].text] + (Texts(rows[1..]) + [""])
  {
  }

  lemma {:induction false} RowsSplit(rows: seq<Row>)
    requires forall k :: 0 <= k < |rows| ==> OneLine(rows[k].text)
    ensures SplitOn(Normalized(Rendered(rows)), '\n') == Texts(rows) + [""]
  {
    if rows == [] {
      SplitNone("", '\n');
    } else {
      RowSplits(rows[0], Rendered(rows[1..]));
      RowsSplit(rows[1..]);
      TextsCons(rows);
    }
  }

  lemma UnfoldSnoc(lines: seq<string>, line: string)
    ensures Unfold(lines + [line]) ==
            if lines != [] && Continues(line) then Unfold(lines)[|Unfold(lines)| - 1 := Unfold(lines)[|Unfold(lines)| - 1] + line[1..]]
            else Unfold(lines) + [line]
  {
    assert (lines + [line])[..|lines|] == lines;
  }

  lemma UnfoldFirstPiece(before: seq<string>, pieces: seq<Piece>)
    requires Cut(pieces) && |pieces| == 1
    ensures Unfold(before + Physical(pieces)) == Unfold(before) + [Whole(pieces)]
  {
    UnfoldSnoc(before, pieces[0].text);
    assert Whole(pieces) == Whole(pieces[..0]) + pieces[0].text == pieces[0].text;
    assert Physical(pieces) == [pieces[0].text];
  }

  lemma UnfoldNextPiece(lines: seq<string>, out: seq<string>, whole: string, line: string)
    requires lines != [] && Unfold(lines) == out + [whole] && Continues(line)
    ensures Unfold(lines + [line]) == out + [whole + line[1..]]
  {
    UnfoldSnoc(lines, line);
  }

  lemma LastPiece(pieces: seq<Piece>)
    requires |pieces| > 1
    ensures var n := |pieces| - 1;
      var line := Blank(pieces[n - 1]) + pieces[n].text;
      Physical(pieces) == Physical(pieces[..n]) + [line] && Physical(pieces[..n]) != [] && Continues(line)
      && Whole(pieces) == Whole(pieces[..n]) + line[1..]
  {
  }

  lemma {:induction false} UnfoldOne(before: seq<string>, pieces: seq<Piece>)
    requires Cut(pieces)
    ensures Unfold(before + Physical(pieces)) == Unfold(before) + [Whole(pieces)]
    decreases |pieces|
  {
    var n := |pieces| - 1;
    if n == 0 {
      UnfoldFirstPiece(before, pieces);
    } else {
      var front, line := pieces[..n], Blank(pieces[n - 1]) + pieces[n].text;
      UnfoldOne(before, front);
      LastPiece(pieces);
      Regroup(before, Physical(front), [line]);
      UnfoldNextPiece(before + Physical(front), Unfold(before), Whole(front), line);
    }
  }

  lemma {:induction false} UnfoldAll(folded: seq<seq<Piece>>)
    requires forall k :: 0 <= k < |folded| ==> Cut(folded[k])
    ensures Unfold(AllPhysical(folded)) == Lines(folded)
  {
    if folded != [] {
      var n := |folded| - 1;
      UnfoldAll(folded[..n]);
      UnfoldOne(AllPhysical(folded[..n]), folded[n]);
      assert Lines(folded) == Lines(folded[..n]) + [Whole(folded[n])];
    }
  }

  /** Section 3.1 of RFC 5545: unfolding any folding of content lines, with CRLF or LF after each
      physical line, gives the content lines, and an empty line after the last break. */
  lemma UnfoldUndoesFold(folded: seq<seq<Piece>>, rows: seq<Row>)
    requires forall k :: 0 <= k < |folded| ==> Cut(folded[k])
    requires Texts(rows) == AllPhysical(folded)
    requires forall k :: 0 <= k < |rows| ==> OneLine(rows[k].text)
    ensures Unfold(SplitOn(Normalized(Rendered(rows)), '\n')) == Lines(folded) + [""]
  {
    RowsSplit(rows);
    UnfoldAll(folded);
    UnfoldSnoc(Texts(rows), "");
  }

  // ----- escaped values -----

  function Unescaped(s: string): string {
    if s == "" then ""
    else if s[0] != '\\' || |s| == 1 then [s[0]] + Unescaped(s[1..])
    else EscapeMeans(s[1]) + Unescaped(s[2..])
  }

  /** A backslash and one character; any other than these is dropped and leaves the backslash. */
  function EscapeMeans(c: char): string {
    if c == 'n' || c == 'N' then "\n"
    else if c == 'r' || c == 'R' then ""
    else if c == ';' || c == ',' || c == '\\' || c == '"' then [c]
    else "\\"
  }

  lemma UnescapedFrom(s: string, i: nat)
    requires i < |s|
    ensures s[i] == '\\' && i + 1 < |s| ==> Unescaped(s[i..]) == EscapeMeans(s[i + 1]) + Unescaped(s[i + 2..])
    ensures s[i] != '\\' || i + 1 == |s| ==> Unescaped(s[i..]) == [s[i]] + Unescaped(s[i + 1..])
  {
    assert s[i..][1..] == s[i + 1..];
    if i + 1 < |s| {
      assert s[i..][2..] == s[i + 2..];
    }
  }

  method UnescapeICalValue(s: string) returns (b: string)
    ensures b == Unescaped(s)
  {
    b := "";
    var i := 0;
    assert s[0..] == s;
    while i < |s|
      invariant i <= |s| && b + Unescaped(s[i..]) == Unescaped(s)
    {
      UnescapedFrom(s, i);
      if s[i] == '\\' && i + 1 < |s| {
        var c := s[i + 1];
        Regroup(b, EscapeMeans(c), Unescaped(s[i + 2..]));
        if c == 'n' || c == 'N' {
          b := b + "\n";
        } else if c == 'r' || c == 'R' {
          b := b + "";
        } else if c == ';' || c == ',' || c == '\\' || c == '"' {
          b := b + [c];
        } else {
          b := b + [s[i]];
        }
        i := i + 2;
      } else {
        Regroup(b, [s[i]], Unescaped(s[i + 1..]));
        b := b + [s[i]];
        i := i + 1;
      }
    }
    assert s[|s|..] == "";
  }

  /** Section 3.3.11 of RFC 5545. */
  function Escaped(s: string): string {
    if s == "" then "" else EscapedChar(s[0]) + Escaped(s[1..])
  }

  function EscapedChar(c: char): string {
    if c == '\n' then "\\n" else if c == ';' || c == ',' || c == '\\' then ['\\', c] else [c]
  }

  lemma {:induction false} UnescapeUndoesEscape(s: string)
    ensures Unescaped(Escaped(s)) == s
  {
    if s != "" {
      var e, rest := EscapedChar(s[0]), Escaped(s[1..]);
      UnescapeUndoesEscape(s[1..]);
      assert (e + rest)[|e|..] == rest;
      assert s == [s[0]] + s[1..];
    }
  }

  /** Unescaping that keeps the pair of an escape it does not know. */
  function KeptUnescaped(s: string): string {
    if s == "" then ""
    else if s[0] != '\\' || |s| == 1 then [s[0]] + KeptUnescaped(s[1..])
    else (if KnownEscape(s[1]) then EscapeMeans(s[1]) else s[..2]) + KeptUnescaped(s[2..])
  }

  predicate KnownEscape(c: char) { c in {'n', 'N', 'r', 'R', ';', ',', '\\', '"'} }

  /** The escapes outside the standard, read from the left. */
  function UnknownEscapes(s: string): nat {
    if s == "" then 0
    else if s[0] != '\\' || |s| == 1 then UnknownEscapes(s[1..])
    else (if KnownEscape(s[1]) then 0 else 1) + UnknownEscapes(s[2..])
  }

  lemma {:induction false} EveryUnknownEscapeLosesOne(s: string)
    ensures |KeptUnescaped(s)| == |Unescaped(s)| + UnknownEscapes(s)
    ensures UnknownEscapes(s) == 0 ==> KeptUnescaped(s) == Unescaped(s)
  {
    if s != "" {
      if s[0] != '\\' || |s| == 1 {
        EveryUnknownEscapeLosesOne(s[1..]);
      } else {
        EveryUnknownEscapeLosesOne(s[2..]);
      }
    }
  }

  /** Nothing of a value is lost if and only if it holds no escape outside the standard. */
  lemma UnescapeLosesNothingExactly(s: string)
    ensures Unescaped(s) == KeptUnescaped(s) <==> UnknownEscapes(s) == 0
  {
    EveryUnknownEscapeLosesOne(s);
  }

  // ----- properties -----

  function UpperChar(c: char): char { if 'a' <= c <= 'z' then (c as int - 32) as char else c }

  function Upper(s: string): string { seq(|s|, i requires 0 <= i < |s| => UpperChar(s[i])) }

  datatype Prop = Prop(name: string, params: map<string, string>, value: string)

  function QuotesAt(s: string, i: nat): (k: nat)
    requires i <= |s|
    ensures i <= k <= |s| && (k < |s| ==> s[k] != '"') && forall j :: i <= j < k ==> s[j] == '"'
    decreases |s| - i
  {
    if i < |s| && s[i] == '"' then QuotesAt(s, i + 1) else i
  }

  function QuotesEnd(s: string, from: nat, end: nat): (k: nat)
    requires from <= end <= |s|
    ensures from <= k <= end && (k > from ==> s[k - 1] != '"') && forall j :: k <= j < end ==> s[j] == '"'
  {
    if end > from && s[end - 1] == '"' then QuotesEnd(s, from, end - 1) else end
  }

  /** strings.Trim(s, `"`). */
  function Unquoted(s: string): string { s[QuotesAt(s, 0)..QuotesEnd(s, QuotesAt(s, 0), |s|)] }

  /** One parameter is taken over if it has a key before its first "=". */
  function WithParam(params: map<string, string>, p: string): map<string, string> {
    var eq := IndexOf(p, '=');
    if eq > 0 then params[p[..eq] := Unquoted(p[eq + 1..])] else params
  }

  function ParamsOf(parts: seq<string>): map<string, string> {
    if parts == [] then map[] else WithParam(ParamsOf(parts[..|parts| - 1]), parts[|parts| - 1])
  }

  function HeadProp(head: string, value: string): Prop {
    var semi := IndexOf(head, ';');
    if semi < 0 then Prop(Upper(head), map[], value)
    else Prop(Upper(head[..semi]), ParamsOf(SplitOn(head[semi + 1..], ';')), value)
  }

  /** The property on a line; none without a colon. */
  function Parsed(line: string): Option<Prop> {
    var idx := IndexOf(line, ':');
    if idx < 0 then None else Some(HeadProp(line[..idx], Unescaped(line[idx + 1..])))
  }

  lemma ParamsStep(parts: seq<string>, i: nat)
    requires i < |parts|
    ensures ParamsOf(parts[..i + 1]) == WithParam(ParamsOf(parts[..i]), parts[i])
  {
    var front := parts[..i + 1];
    assert front[..|front| - 1] == parts[..i] && front[|front| - 1] == parts[i];
  }

  method ParseParam(params: map<string, string>, p: string) returns (r: map<string, string>)
    ensures r == WithParam(params, p)
  {
    r := params;
    var eq := IndexOf(p, '=');
    if eq > 0 { r := r[p[..eq] := Unquoted(p[eq + 1..])]; }
  }

  method ParseParams(text: string) returns (params: map<string, string>)
    ensures params == ParamsOf(SplitOn(text, ';'))
  {
    var parts := SplitOn(text, ';');
    params := map[];
    for i := 0 to |parts|
      invariant params == ParamsOf(parts[..i])
    {
      ParamsStep(parts, i);
      params := ParseParam(params, parts[i]);
    }
    assert parts[..|parts|] == parts;
  }

  method ParseICalProp(line: string) returns (r: Option<Prop>)
    ensures r == Parsed(line)
  {
    var idx := IndexOf(line, ':');
    if idx < 0 { return None; }
    var namepart := line[..idx];
    var value := UnescapeICalValue(line[idx + 1..]);
    var name, params := namepart, map[];
    var semi := IndexOf(namepart, ';');
    if semi != -1 {
      name := namepart[..semi];
      params := ParseParams(namepart[semi + 1..]);
    }
    r := Some(Prop(Upper(name), params, value));
  }

  // ----- parsing undoes printing -----

  /** A parameter, printed with or without quotes. */
  datatype Param = Param(key: string, value: string, quoted: bool)

  predicate Plain(s: string) { Lacks(s, ':') && Lacks(s, ';') }

  /** What the standard asks of a parameter: a key without delimiters, a value without quotes. */
  predicate KeyOk(p: Param) { p.key != "" && Plain(p.key) && Lacks(p.key, '=') && Lacks(p.value, '"') }

  predicate ParamOk(p: Param) { KeyOk(p) && Plain(p.value) }

  function PrintedParam(p: Param): string {
    p.key + "=" + (if p.quoted then "\"" + p.value + "\"" else p.value)
  }

  /** The parameters joined by semicolons. */
  function PrintedParams(params: seq<Param>): string
    requires params != []
  {
    if |params| == 1 then PrintedParam(params[0]) else PrintedParam(params[0]) + ";" + PrintedParams(params[1..])
  }

  function Head(name: string, params: seq<Param>): string {
    if params == [] then name else name + ";" + PrintedParams(params)
  }

  function Printed(name: string, params: seq<Param>, value: string): string {
    Head(name, params) + ":" + Escaped(value)
  }

  /** A key given twice keeps its last value. */
  function ParamMap(params: seq<Param>): map<string, string> {
    if params == [] then map[]
    else ParamMap(params[..|params| - 1])[params[|params| - 1].key := params[|params| - 1].value]
  }

  lemma UnquotedValue(v: string, quoted: bool)
    requires Lacks(v, '"')
    ensures Unquoted(if quoted then "\"" + v + "\"" else v) == v
  {
    var s := if quoted then "\"" + v + "\"" else v;
    if quoted {
      assert s[|s| - 1] == '"' && forall i :: 0 <= i < |v| ==> s[i + 1] == v[i];
      if v == "" {
        assert s == "\"\"";
        assert QuotesAt(s, 0) == 2;
      } else {
        assert QuotesAt(s, 1) == 1 && QuotesAt(s, 0) == 1;
        assert s[|s| - 2] == v[|v| - 1];
        assert QuotesEnd(s, 1, |s| - 1) == |s| - 1;
        assert QuotesEnd(s, 1, |s|) == |s| - 1;
        assert s[1..|s| - 1] == v;
      }
    }
  }

  lemma ParamIsTaken(before: map<string, string>, p: Param)
    requires ParamOk(p)
    ensures WithParam(before, PrintedParam(p)) == before[p.key := p.value]
  {
    var v := if p.quoted then "\"" + p.value + "\"" else p.value;
    IndexAfter(p.key, '=', v);
    UnquotedValue(p.value, p.quoted);
  }

  lemma PrintedParamPlain(p: Param)
    requires ParamOk(p)
    ensures Plain(PrintedParam(p))
  {
  }

  function PrintedEach(params: seq<Param>): seq<string> {
    seq(|params|, k requires 0 <= k < |params| => PrintedParam(params[k]))
  }

  lemma PrintedEachCons(params: seq<Param>)
    requires params != []
    ensures PrintedEach(params) == [PrintedParam(params[0])] + PrintedEach(params[1..])
  {
  }

  lemma {:induction false} ParamsSplit(params: seq<Param>)
    requires params != [] && forall k :: 0 <= k < |params| ==> ParamOk(params[k])
    ensures SplitOn(PrintedParams(params), ';') == PrintedEach(params)
  {
    var first := PrintedParam(params[0]);
    assert Lacks(first, ';') by { PrintedParamPlain(params[0]); }
    PrintedEachCons(params);
    if |params| == 1 {
      SplitNone(first, ';');
    } else {
      ParamsSplit(params[1..]);
      SplitFirst(first, ';', PrintedParams(params[1..]));
      assert PrintedParams(params) == first + [';'] + PrintedParams(params[1..]);
    }
  }

  lemma LacksBoth(a: string, b: string, c: char)
    ensures Lacks(a + b, c) <==> Lacks(a, c) && Lacks(b, c)
  {
    if Lacks(a + b, c) {
      assert forall i :: 0 <= i < |a| ==> a[i] == (a + b)[i];
      assert forall i :: 0 <= i < |b| ==> b[i] == (a + b)[|a| + i];
    }
  }

  lemma {:induction false} ParamsLackColon(params: seq<Param>)
    requires params != [] && forall k :: 0 <= k < |params| ==> ParamOk(params[k])
    ensures Lacks(PrintedParams(params), ':')
  {
    PrintedParamPlain(params[0]);
    if |params| > 1 {
      ParamsLackColon(params[1..]);
      LacksBoth(PrintedParam(params[0]), ";", ':');
      LacksBoth(PrintedParam(params[0]) + ";", PrintedParams(params[1..]), ':');
    }
  }

  lemma {:induction false} ParamsTaken(params: seq<Param>)
    requires forall k :: 0 <= k < |params| ==> ParamOk(params[k])
    ensures ParamsOf(PrintedEach(params)) == ParamMap(params)
  {
    if params != [] {
      var n := |params| - 1;
      ParamsTaken(params[..n]);
      assert PrintedEach(params)[..n] == PrintedEach(params[..n]);
      ParamIsTaken(ParamMap(params[..n]), params[n]);
    }
  }

  /** A name part without colons gives the name and parameters, all the rest the value. */
  lemma ParsedParts(head: string, rest: string)
    requires Lacks(head, ':')
    ensures Parsed(head + ":" + rest) == Some(HeadProp(head, Unescaped(rest)))
  {
    assert ":" == [':'];
    IndexAfter(head, ':', rest);
  }

  lemma HeadLacksColon(name: string, params: seq<Param>)
    requires Plain(name) && forall k :: 0 <= k < |params| ==> ParamOk(params[k])
    ensures Lacks(Head(name, params), ':')
  {
    if params != [] {
      ParamsLackColon(params);
      LacksBoth(name, ";", ':');
      LacksBoth(name + ";", PrintedParams(params), ':');
    }
  }

  lemma HeadIsRead(name: string, params: seq<Param>, value: string)
    requires Plain(name) && forall k :: 0 <= k < |params| ==> ParamOk(params[k])
    ensures HeadProp(Head(name, params), value) == Prop(Upper(name), ParamMap(params), value)
  {
    if params == [] {
      assert IndexOf(name, ';') == -1;
    } else {
      assert ";" == [';'];
      IndexAfter(name, ';', PrintedParams(params));
      ParamsSplit(params);
      ParamsTaken(params);
    }
  }

  /** A property whose parameter values hold no delimiter is read back: its name in capitals, its
      parameters, its value, whatever the value holds. */
  lemma ParsePlain(name: string, params: seq<Param>, value: string)
    requires Plain(name) && forall k :: 0 <= k < |params| ==> ParamOk(params[k])
    ensures Parsed(Printed(name, params, value)) == Some(Prop(Upper(name), ParamMap(params), value))
  {
    UnescapeUndoesEscape(value);
    HeadLacksColon(name, params);
    HeadIsRead(name, params, value);
    ParsedParts(Head(name, params), Escaped(value));
  }

  // ----- and otherwise it does not -----

  lemma {:induction false} SplitLacks(s: string, c: char, d: char)
    ensures forall k :: 0 <= k < |SplitOn(s, c)| ==> Lacks(SplitOn(s, c)[k], c) && (Lacks(s, d) ==> Lacks(SplitOn(s, c)[k], d))
    decreases |s|
  {
    var i := IndexOf(s, c);
    if i >= 0 {
      SplitLacks(s[i + 1..], c, d);
      assert Lacks(s, d) ==> Lacks(s[i + 1..], d);
    }
  }

  lemma UnquotedLacks(s: string, c: char)
    requires Lacks(s, c)
    ensures Lacks(Unquoted(s), c)
  {
  }

  /** No parameter value holds a character that none of the parts holds. */
  lemma {:induction false} ParamsLack(parts: seq<string>, c: char)
    requires forall k :: 0 <= k < |parts| ==> Lacks(parts[k], c)
    ensures forall key :: key in ParamsOf(parts) ==> Lacks(ParamsOf(parts)[key], c)
  {
    if parts != [] {
      var n := |parts| - 1;
      var front := parts[..n];
      assert forall k :: 0 <= k < |front| ==> front[k] == parts[k];
      ParamsLack(front, c);
      ParamLacks(ParamsOf(front), parts[n], c);
    }
  }

  lemma ParamLacks(params: map<string, string>, part: string, c: char)
    requires Lacks(part, c) && forall key :: key in params ==> Lacks(params[key], c)
    ensures forall key :: key in WithParam(params, part) ==> Lacks(WithParam(params, part)[key], c)
  {
    var eq := IndexOf(part, '=');
    if eq > 0 {
      UnquotedLacks(part[eq + 1..], c);
    }
  }

  /** What is parsed never holds a colon or a semicolon in a parameter value. */
  lemma ParsedParamsArePlain(line: string)
    ensures Parsed(line).Some? ==> forall key :: key in Parsed(line).value.params ==> Plain(Parsed(line).value.params[key])
  {
    var idx := IndexOf(line, ':');
    if idx >= 0 {
      var head := line[..idx];
      var semi := IndexOf(head, ';');
      if semi >= 0 {
        var rest := head[semi + 1..];
        assert Lacks(rest, ':');
        SplitLacks(rest, ';', ':');
        ParamsLack(SplitOn(rest, ';'), ';');
        ParamsLack(SplitOn(rest, ';'), ':');
      }
    }
  }

  predicate DistinctKeys(params: seq<Param>) { forall j, k :: 0 <= j < k < |params| ==> params[j].key != params[k].key }

  lemma {:induction false} ParamMapHolds(params: seq<Param>, k: nat)
    requires k < |params| && DistinctKeys(params)
    ensures params[k].key in ParamMap(params) && ParamMap(params)[params[k].key] == params[k].value
  {
    var n := |params| - 1;
    if k < n {
      ParamMapHolds(params[..n], k);
    }
  }

  /** A property with distinct parameter keys, printed as the standard has it, is read back if and only
      if no parameter value holds a colon or a semicolon, quoted or not; the value may hold anything. */
  lemma ParseUndoesPrint(name: string, params: seq<Param>, value: string)
    requires Plain(name) && DistinctKeys(params) && forall k :: 0 <= k < |params| ==> KeyOk(params[k])
    ensures Parsed(Printed(name, params, value)) == Some(Prop(Upper(name), ParamMap(params), value)) <==>
            forall k :: 0 <= k < |params| ==> Plain(params[k].value)
  {
    if forall k :: 0 <= k < |params| ==> Plain(params[k].value) {
      ParsePlain(name, params, value);
    } else {
      var k: nat :| k < |params| && !Plain(params[k].value);
      ParamMapHolds(params, k);
      ParsedParamsArePlain(Printed(name, params, value));
    }
  }

  /** In particular the first colon ends the name part even inside a quoted parameter. */
  lemma FirstColonEndsParameters(name: string, key: string, a: string, b: string, value: string)
    requires Plain(name) && Lacks(key, ':') && Lacks(a, ':')
    ensures var r := Parsed(name + ";" + key + "=\"" + a + ":" + b + "\":" + Escaped(value));
      r.Some? && r.value.value == Unescaped(b + "\":" + Escaped(value))
  {
    var head, rest := name + ";" + key + "=\"" + a, b + "\":" + Escaped(value);
    LacksBoth(name + ";" + key + "=\"", a, ':');
    LacksBoth(name + ";" + key, "=\"", ':');
    LacksBoth(name + ";", key, ':');
    LacksBoth(name, ";", ':');
    assert head + ":" + rest == name + ";" + key + "=\"" + a + ":" + b + "\":" + Escaped(value);
    ParsedParts(head, rest);
  }
}
