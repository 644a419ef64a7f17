/** Reading and printing the From header of a mail. Strings are counted in characters. */
module FromHeader {
  import opened Wrappers
  import opened Text

  /** The MIME library's decoder for one encoded word =?charset?encoding?text?=. */
  type Decoder = string -> Option<string>

  // ----- decoding -----

  function IndexOfSub(s: string, sub: string): (r: int)
    ensures -1 <= r <= |s| - |sub| || r == -1
    ensures r >= 0 ==> ContainsAt(s, sub, r)
    ensures r < 0 ==> !Contains(s, sub)
  {
    if |s| < |sub| then -1
    else if s[..|sub|] == sub then 0
    else
      var k := IndexOfSub(s[1..], sub);
      ShiftContains(s, sub);
      if k < 0 then -1 else assert s[1..][k..k + |sub|] == s[k + 1..k + 1 + |sub|]; k + 1
  }

  lemma ShiftContains(s: string, sub: string)
    requires s != [] && !ContainsAt(s, sub, 0)
    ensures Contains(s, sub) <==> Contains(s[1..], sub)
  {
    if Contains(s, sub) {
      var i :| 0 <= i <= |s| && ContainsAt(s, sub, i);
      assert s[1..][i - 1..i - 1 + |sub|] == s[i..i + |sub|];
      assert ContainsAt(s[1..], sub, i - 1);
    }
    if Contains(s[1..], sub) {
      var i :| 0 <= i <= |s[1..]| && ContainsAt(s[1..], sub, i);
      assert s[1..][i..i + |sub|] == s[i + 1..i + 1 + |sub|];
      assert ContainsAt(s, sub, i + 1);
    }
  }

  /** The length of the encoded word s starts with, or 0. */
  function WordAt(s: string, dec: Decoder): (n: nat)
    ensures n <= |s|
    ensures n > 0 ==> HasPrefix(s, "=?") && dec(s[..n]).Some?
  {
    if HasPrefix(s, "=?") then
      var j := IndexOfSub(s, "?=");
      if j > 4 && dec(s[..j + 2]).Some? then j + 2 else 0
    else 0
  }

  /** What separates two encoded words: a space, and a question mark after it. */
  function AfterWord(s: string): (t: string)
    ensures |t| <= |s|
  {
    if HasPrefix(s, " ?") then s[2..] else if HasPrefix(s, " ") then s[1..] else s
  }

  /** The text the front of s decodes to, and what is left to decode. */
  function NextPiece(s: string, dec: Decoder): (r: (string, string))
    requires s != []
    ensures |r.1| < |s|
  {
    var n := WordAt(s, dec);
    if n > 0 then (dec(s[..n]).value, AfterWord(s[n..])) else ([s[0]], s[1..])
  }

  function DecodeWords(s: string, dec: Decoder): string
    decreases |s|
  {
    if s == [] then []
    else
      var (piece, rest) := NextPiece(s, dec);
      piece + DecodeWords(rest, dec)
  }

  /** The first index at or after from that holds white space, or the length. */
  function WordEnd(s: string, from: nat): (k: nat)
    requires from <= |s|
    ensures from <= k <= |s|
    ensures forall i :: from <= i < k ==> !IsSpace(s[i])
    ensures k < |s| ==> IsSpace(s[k])
    decreases |s| - from
  {
    if from < |s| && !IsSpace(s[from]) then WordEnd(s, from + 1) else from
  }

  /** The characters of s up to the first white space. */
  function FirstWord(s: string): string { s[..WordEnd(s, 0)] }

  /** The words of s separated by single spaces. */
  function JoinFields(s: string): string
    decreases |s|
  {
    var t := TrimLeft(s);
    if t == [] then []
    else
      var w := FirstWord(t);
      var rest := JoinFields(t[|w|..]);
      if rest == [] then w else w + " " + rest
  }

  /** decodeFrom: encoded words are decoded, white space is normalised. */
  function Decoded(header: string, dec: Decoder): string { TrimSpace(JoinFields(DecodeWords(header, dec))) }

  lemma AfterWordAt(h: string, k: nat)
    requires k <= |h|
    ensures k < |h| && h[k] == ' ' && k + 1 < |h| && h[k + 1] == '?' ==> AfterWord(h[k..]) == h[k + 2..]
    ensures k < |h| && h[k] == ' ' && !(k + 1 < |h| && h[k + 1] == '?') ==> AfterWord(h[k..]) == h[k + 1..]
    ensures !(k < |h| && h[k] == ' ') ==> AfterWord(h[k..]) == h[k..]
  {
    var s := h[k..];
    if k < |h| {
      assert s[0] == h[k] && s[1..] == h[k + 1..];
      if k + 1 < |h| {
        assert s[1] == h[k + 1] && s[2..] == h[k + 2..] && s[..2] == [h[k], h[k + 1]];
      }
    }
  }

  /** Decodes the front of the header at i: an encoded word with the separator after it, or one
      character. */
  method DecodeFront(header: string, i: nat, dec: Decoder) returns (piece: string, k: nat)
    requires i < |header|
    ensures i < k <= |header| && (piece, header[k..]) == NextPiece(header[i..], dec)
  {
    var rest := header[i..];
    if HasPrefix(rest, "=?") {
      var j := IndexOfSub(rest, "?=");
      if j > 4 {
        var decoded := dec(rest[..j + 2]);
        if decoded.Some? {
          piece, k := decoded.value, i + j + 2;
          assert WordAt(rest, dec) == j + 2 && rest[j + 2..] == header[k..];
          AfterWordAt(header, k);
          if k < |header| && header[k] == ' ' {
            k := k + 1;
            if k < |header| && header[k] == '?' {
              k := k + 1;
            }
          }
          return;
        }
      }
    }
    piece, k := [header[i]], i + 1;
    assert rest[1..] == header[k..];
  }

  method DecodeFrom(header: string, dec: Decoder) returns (res: string)
    ensures res == Decoded(header, dec)
  {
    var b := "";
    var i := 0;
    while i < |header|
      invariant 0 <= i <= |header|
      invariant DecodeWords(header, dec) == b + DecodeWords(header[i..], dec)
    {
      var piece, k := DecodeFront(header, i, dec);
      Regroup(b, piece, DecodeWords(header[k..], dec));
      b, i := b + piece, k;
    }
    assert DecodeWords(header[i..], dec) == [];
    assert b == DecodeWords(header, dec);
    return TrimSpace(JoinFields(b));
  }

  // ----- address validity -----

  predicate DomainChar(c: char) {
    'a' <= c <= 'z' || 'A' <= c <= 'Z' || '0' <= c <= '9' || c == '.' || c == '_' || c == '-'
  }

  predicate DomainStart(c: char) { c == '_' || 'a' <= c <= 'z' || 'A' <= c <= 'Z' }

  predicate ValidDomain(domain: string) {
    && |domain| >= 4
    && domain[|domain| - 1] != '.'
    && !Contains(domain, "..") && !Contains(domain, "-.") && !Contains(domain, ".-")
    && DomainStart(domain[0])
    && forall i :: 0 <= i < |domain| ==> DomainChar(domain[i])
  }

  predicate ValidLocal(local: string) {
    && 1 <= |local| <= 64
    && local[0] != '.' && local[|local| - 1] != '.'
    && !Contains(local, "..")
  }

  predicate ValidAddress(addr: string) {
    var at := LastIndexOf(addr, '@');
    && 3 <= |addr| <= 254
    && 0 < at < |addr| - 1
    && ValidLocal(addr[..at]) && ValidDomain(addr[at + 1..])
  }

  // ----- the parser -----

  /** The parser works with any test of an address. */
  type Validator = string -> bool

  predicate Quoted(v: string) { |v| >= 2 && v[0] == '"' && v[|v| - 1] == '"' }

  function Unquoted(t: string): string { TrimSpace(if Quoted(t) then t[1..|t| - 1] else t) }

  function StripQuotes(v: string): string {
    Unquoted(TrimSpace(v))
  }

  function Split(s: string, c: char): (parts: seq<string>)
    ensures |parts| >= 1
  {
    if s == [] then [[]]
    else
      var parts := Split(s[1..], c);
      if s[0] == c then [[]] + parts else [[s[0]] + parts[0]] + parts[1..]
  }

  lemma {:induction false} SplitLacking(s: string, c: char)
    requires Lacks(s, c)
    ensures Split(s, c) == [s]
  {
    if s != [] {
      SplitLacking(s[1..], c);
      assert s == [s[0]] + s[1..];
    }
  }

  /** The first part that is a valid address, or the empty string. */
  function FirstValid(parts: seq<string>, valid: Validator): (addr: string)
    ensures addr != "" ==> valid(addr)
  {
    if parts == [] then ""
    else
      var p := TrimSpace(parts[0]);
      if p != "" && valid(p) then p else FirstValid(parts[1..], valid)
  }

  datatype From = From(email: string, name: string)

  /** What stands between the first '<' and the last '>', or after the first '<'. */
  function Inner(s: string): string {
    var open, close := IndexOf(s, '<'), LastIndexOf(s, '>');
    if close > open then s[open + 1..close] else s[open + 1..]
  }

  function Rest(s: string): string {
    var open, close := IndexOf(s, '<'), LastIndexOf(s, '>');
    if close > open then s[close + 1..] else ""
  }

  function ParseDecoded(s: string, valid: Validator): (f: From)
    ensures f.email != "" ==> valid(f.email)
  {
    if s == "" then From("", "")
    else if IndexOf(s, '<') >= 0 then
      var name := StripQuotes(s[..IndexOf(s, '<')]);
      var a := FirstValid(Split(Inner(s), ','), valid);
      var b := FirstValid(Split(Rest(s), ','), valid);
      if a != "" then From(a, name) else From(b, name)
    else if IndexOf(s, '@') > 0 && valid(TrimSpace(s)) then From(TrimSpace(s), "")
    else From("", "")
  }

  function ParseFromHeader(raw: string, dec: Decoder): (f: From)
    ensures f.email != "" ==> ValidAddress(f.email)
  {
    ParseDecoded(Decoded(raw, dec), ValidAddress)
  }

  /** The printer in Extract. */
  function Print(f: From): string {
    if f.name != "" then f.name + " <" + f.email + ">" else f.email
  }

  // ----- normalised text -----

  /** White space only as blanks, no two of them adjacent. */
  predicate NearlyNormal(s: string) {
    (forall i :: 0 <= i < |s| && IsSpace(s[i]) ==> s[i] == ' ') &&
    (forall i, j :: 0 <= i < j < |s| && IsSpace(s[i]) && IsSpace(s[j]) ==> i + 1 < j)
  }

  /** Trimmed, and words separated by single blanks. */
  predicate Normal(s: string) { NearlyNormal(s) && Trimmed(s) }

  lemma JoinLeading(s: string)
    requires s != [] && !IsSpace(s[0])
    ensures JoinFields(" " + s) == JoinFields(s)
  {
    var t := " " + s;
    assert t[1] == s[0] && IsSpace(t[0]);
    assert SkipSpace(t, 0) == 1 && t[1..] == s;
    assert SkipSpace(s, 0) == 0;
    assert TrimLeft(t) == TrimLeft(s) == s;
  }

  lemma NormalSplit(s: string) returns (rest: string)
    requires Normal(s) && s != [] && |FirstWord(s)| < |s|
    ensures rest != [] && Normal(rest) && FirstWord(s) != []
    ensures s == FirstWord(s) + " " + rest && s[|FirstWord(s)|..] == " " + rest
  {
    var n := |FirstWord(s)|;
    assert IsSpace(s[n]) && n + 1 < |s|;
    rest := s[n + 1..];
    assert rest[0] == s[n + 1] && rest[|rest| - 1] == s[|s| - 1];
  }

  lemma {:induction false} JoinIsFixed(s: string)
    requires Normal(s)
    ensures JoinFields(s) == s
    decreases |s|
  {
    if s != [] {
      TrimTrimmed(s);
      if |FirstWord(s)| < |s| {
        var rest := NormalSplit(s);
        JoinIsFixed(rest);
        JoinLeading(rest);
      } else {
        assert s[|s|..] == [];
        assert JoinFields([]) == [];
      }
    }
  }

  /** Words with white space before, between and after them. */
  function Gapped(gaps: seq<string>, words: seq<string>): string
    requires |gaps| == |words| + 1
  {
    if words == [] then gaps[0] else gaps[0] + words[0] + Gapped(gaps[1..], words[1..])
  }

  predicate GapsOk(gaps: seq<string>, words: seq<string>) {
    && |gaps| == |words| + 1
    && (forall g :: g in gaps ==> AllSpace(g))
    && (forall i :: 0 < i < |words| ==> gaps[i] != "")
    && forall w :: w in words ==> w != "" && NoSpace(w)
  }

  function Joined(words: seq<string>): string {
    if |words| == 0 then "" else if |words| == 1 then words[0] else words[0] + " " + Joined(words[1..])
  }

  /** strings.Join(strings.Fields(s), " "): the words, one blank between two of them, however much
      white space the text has. */
  lemma {:induction false} FieldsAreJoined(gaps: seq<string>, words: seq<string>)
    requires GapsOk(gaps, words)
    ensures JoinFields(Gapped(gaps, words)) == Joined(words)
  {
    if words == [] {
      assert gaps[0] in gaps;
      assert SkipSpace(gaps[0], 0) == |gaps[0]|;
    } else {
      GapsLater(gaps, words);
      assert gaps[0] in gaps && words[0] in words;
      FrontField(gaps[0], words[0], Gapped(gaps[1..], words[1..]));
      FieldsAreJoined(gaps[1..], words[1..]);
      JoinedEmpty(words[1..]);
    }
  }

  lemma GapsLater(gaps: seq<string>, words: seq<string>)
    requires GapsOk(gaps, words) && words != []
    ensures GapsOk(gaps[1..], words[1..])
    ensures var after := Gapped(gaps[1..], words[1..]); after != [] ==> IsSpace(after[0])
  {
    assert forall g :: g in gaps[1..] ==> g in gaps;
    assert forall w :: w in words[1..] ==> w in words;
    assert forall i :: 0 <= i < |gaps[1..]| ==> gaps[1..][i] == gaps[i + 1];
    assert gaps[1] in gaps;
  }

  /** The first word of a text, and what follows it. */
  lemma FrontField(g: string, w: string, after: string)
    requires AllSpace(g) && w != "" && NoSpace(w) && (after != [] ==> IsSpace(after[0]))
    ensures JoinFields(g + w + after) == if JoinFields(after) == [] then w else w + " " + JoinFields(after)
  {
    FrontTrim(g, w, after);
    FrontWord(w, after);
  }

  lemma FrontTrim(g: string, w: string, after: string)
    requires AllSpace(g) && w != "" && NoSpace(w)
    ensures TrimLeft(g + w + after) == w + after
  {
    var s := g + w + after;
    assert forall i :: 0 <= i < |g| ==> s[i] == g[i];
    assert s[|g|] == w[0];
    assert SkipSpace(s, 0) == |g|;
  }

  lemma FrontWord(w: string, after: string)
    requires NoSpace(w) && (after != [] ==> IsSpace(after[0]))
    ensures FirstWord(w + after) == w && (w + after)[|w|..] == after
  {
    var t := w + after;
    assert forall i :: 0 <= i < |w| ==> t[i] == w[i];
    assert after != [] ==> t[|w|] == after[0];
    assert WordEnd(t, 0) == |w|;
  }

  lemma JoinedEmpty(words: seq<string>)
    requires forall w :: w in words ==> w != ""
    ensures Joined(words) == "" <==> words == []
  {
    assert words != [] ==> words[0] in words;
  }

  lemma NormalIsFixed(s: string)
    requires Normal(s)
    ensures JoinFields(s) == s && Trimmed(s) && TrimSpace(s) == s
  {
    JoinIsFixed(s);
    TrimTrimmed(s);
  }

  lemma NormalGlue(a: string, b: string)
    requires Normal(a) && Normal(b) && a != [] && b != []
    ensures Normal(a + b)
    ensures Normal(a + " " + b)
  {
    NearlyGlue(a, b);
    assert NearlyNormal(a + " " + b) by {
      NearlyCons(' ', b);
      NearlyGlue(a, " " + b);
      assert a + " " + b == a + (" " + b);
    }
  }

  lemma NearlyGlue(a: string, b: string)
    requires Normal(a) && NearlyNormal(b)
    ensures NearlyNormal(a + b)
  {
  }

  lemma {:induction false} JoinFieldsNormal(s: string)
    ensures Normal(JoinFields(s))
    decreases |s|
  {
    var t := TrimLeft(s);
    if t != [] {
      var w := FirstWord(t);
      var rest := JoinFields(t[|w|..]);
      JoinFieldsNormal(t[|w|..]);
      if rest != [] {
        NormalGlue(w, rest);
      }
    }
  }

  lemma {:induction false} NoWordsToDecode(s: string, dec: Decoder)
    requires !Contains(s, "=?")
    ensures DecodeWords(s, dec) == s
  {
    if s != [] {
      assert !ContainsAt(s, "=?", 0);
      ShiftContains(s, "=?");
      NoWordsToDecode(s[1..], dec);
    }
  }

  /** A normal header without encoded words is read as it stands. */
  lemma DecodedIsFixed(s: string, dec: Decoder)
    requires Normal(s) && !Contains(s, "=?")
    ensures Decoded(s, dec) == s
  {
    NoWordsToDecode(s, dec);
    NormalIsFixed(s);
  }

  lemma DecodedNormal(raw: string, dec: Decoder)
    ensures Normal(Decoded(raw, dec))
  {
    JoinFieldsNormal(DecodeWords(raw, dec));
    NormalIsFixed(JoinFields(DecodeWords(raw, dec)));
  }

  // ----- parser and printer -----

  lemma PrintedParts(e: string, n: string)
    requires Lacks(n, '<')
    ensures var s := n + " <" + e + ">";
      IndexOf(s, '<') == |n| + 1 && s[..|n| + 1] == n + " " && Inner(s) == e
  {
    var s := n + " <" + e + ">";
    var open := |n| + 1;
    assert s[open] == '<' && IndexOf(s, '<') == open;
    assert s[|s| - 1] == '>' && LastIndexOf(s, '>') == |s| - 1;
    assert s[open + 1..|s| - 1] == e;
  }

  lemma StripTrailingBlank(n: string)
    requires Trimmed(n) && n != ""
    ensures StripQuotes(n + " ") == Unquoted(n)
  {
    TrimTrailingSpace(n);
  }

  /** A printed pair is read back as its address, with one pair of quotes taken off the name. */
  lemma ParseNamed(e: string, n: string, valid: Validator)
    requires Trimmed(n) && n != "" && Lacks(n, '<')
    requires e != "" && valid(e) && Trimmed(e) && Lacks(e, ',')
    ensures ParseDecoded(n + " <" + e + ">", valid) ==
            From(e, Unquoted(n))
  {
    PrintedParts(e, n);
    StripTrailingBlank(n);
    TrimTrimmed(e);
    SplitLacking(e, ',');
  }

  lemma NearlySlice(s: string, lo: nat, hi: nat)
    requires NearlyNormal(s) && lo <= hi <= |s|
    ensures NearlyNormal(s[lo..hi])
  {
    var t := s[lo..hi];
    assert forall i :: 0 <= i < |t| ==> t[i] == s[lo + i];
  }

  lemma AngleParts(s: string)
    requires IndexOf(s, '<') >= 0
    ensures |Inner(s)| < |s| && |Rest(s)| < |s|
  {
  }

  lemma NearlyAngles(s: string)
    requires NearlyNormal(s) && IndexOf(s, '<') >= 0
    ensures NearlyNormal(s[..IndexOf(s, '<')]) && NearlyNormal(Inner(s)) && NearlyNormal(Rest(s))
  {
    var open, close := IndexOf(s, '<'), LastIndexOf(s, '>');
    NearlySlices(s, open, open + 1);
    if close > open {
      NearlySlice(s, open + 1, close);
      NearlySlices(s, open, close + 1);
    }
  }

  /** A beginning and an end of a text. */
  lemma NearlySlices(s: string, hi: nat, lo: nat)
    requires NearlyNormal(s) && hi <= |s| && lo <= |s|
    ensures NearlyNormal(s[..hi]) && NearlyNormal(s[lo..])
  {
    NearlySlice(s, 0, hi);
    NearlySlice(s, lo, |s|);
    assert s[0..hi] == s[..hi] && s[lo..|s|] == s[lo..];
  }

  lemma AngleParse(s: string, valid: Validator)
    requires s != "" && IndexOf(s, '<') >= 0
    ensures var f := ParseDecoded(s, valid);
      f.name == StripQuotes(s[..IndexOf(s, '<')]) &&
      (f.email == FirstValid(Split(Inner(s), ','), valid) || f.email == FirstValid(Split(Rest(s), ','), valid))
  {
  }

  lemma AngleIsShorter(e: string, valid: Validator)
    requires e != "" && IndexOf(e, '<') >= 0
    ensures |ParseDecoded(e, valid).email| < |e|
  {
    AngleParse(e, valid);
    AngleParts(e);
    FirstValidIsShort(Split(Inner(e), ','), |e| - 1, valid);
    FirstValidIsShort(Split(Rest(e), ','), |e| - 1, valid);
    SplitParts(Inner(e), ',');
    SplitParts(Rest(e), ',');
  }

  lemma BareParse(e: string, valid: Validator)
    requires e != "" && Lacks(e, '<') && TrimSpace(e) == e && valid(e)
    ensures ParseDecoded(e, valid) == if IndexOf(e, '@') > 0 then From(e, "") else From("", "")
  {
  }

  lemma ParseBare(e: string, valid: Validator)
    requires valid(e) && Trimmed(e) && '@' in e
    ensures ParseDecoded(e, valid) == From(e, "") <==> Lacks(e, '<') && e[0] != '@'
  {
    if IndexOf(e, '<') >= 0 {
      AngleIsShorter(e, valid);
    } else {
      TrimTrimmed(e);
      BareParse(e, valid);
      assert IndexOf(e, '@') >= 0;
    }
  }

  lemma {:induction false} SplitParts(s: string, c: char)
    ensures forall p :: p in Split(s, c) ==> |p| <= |s| && Lacks(p, c)
  {
    if s != [] {
      SplitParts(s[1..], c);
    }
  }

  lemma {:induction false} FirstValidIsShort(parts: seq<string>, n: nat, valid: Validator)
    ensures (forall p :: p in parts ==> |p| <= n) ==> |FirstValid(parts, valid)| <= n
  {
    if parts != [] {
      FirstValidIsShort(parts[1..], n, valid);
    }
  }

  lemma TrimNormal(s: string)
    requires NearlyNormal(s)
    ensures Normal(TrimSpace(s))
  {
    assert NearlyNormal(TrimLeft(s));
  }

  lemma StripNormal(v: string)
    requires NearlyNormal(v)
    ensures Normal(StripQuotes(v))
    ensures forall c :: c in StripQuotes(v) ==> c in v
  {
    var t := TrimSpace(v);
    TrimNormal(v);
    var u := if Quoted(t) then t[1..|t| - 1] else t;
    assert NearlyNormal(u);
    TrimNormal(u);
  }

  lemma NearlyCons(c: char, p: string)
    requires NearlyNormal(p) && (IsSpace(c) ==> c == ' ' && (p != [] ==> !IsSpace(p[0])))
    ensures NearlyNormal([c] + p)
  {
  }

  lemma {:induction false} SplitNearlyNormal(s: string, c: char)
    requires NearlyNormal(s)
    ensures forall p :: p in Split(s, c) ==> NearlyNormal(p)
    ensures Split(s, c)[0] != [] ==> s != [] && Split(s, c)[0][0] == s[0]
  {
    if s != [] {
      assert NearlyNormal(s[1..]);
      SplitNearlyNormal(s[1..], c);
      var parts := Split(s[1..], c);
      if s[0] != c {
        NearlyCons(s[0], parts[0]);
      }
    }
  }

  lemma FirstValidShape(s: string, valid: Validator)
    requires NearlyNormal(s)
    ensures var a := FirstValid(Split(s, ','), valid);
      Lacks(a, ',') && Normal(a)
  {
    SplitNearlyNormal(s, ',');
    SplitParts(s, ',');
    PartShape(Split(s, ','), valid);
  }

  lemma {:induction false} PartShape(parts: seq<string>, valid: Validator)
    requires forall p :: p in parts ==> NearlyNormal(p) && Lacks(p, ',')
    ensures Lacks(FirstValid(parts, valid), ',') && Normal(FirstValid(parts, valid))
  {
    if parts != [] {
      var p := TrimSpace(parts[0]);
      TrimNormal(parts[0]);
      assert forall i :: 0 <= i < |p| ==> p[i] in p;
      PartShape(parts[1..], valid);
    }
  }

  lemma NameShape(before: string)
    requires NearlyNormal(before) && Lacks(before, '<')
    ensures Normal(StripQuotes(before)) && Lacks(StripQuotes(before), '<')
  {
    StripNormal(before);
    var name := StripQuotes(before);
    assert forall i :: 0 <= i < |name| ==> name[i] in name;
  }

  lemma AngleNameShape(s: string)
    requires NearlyNormal(s) && IndexOf(s, '<') >= 0
    ensures var name := StripQuotes(s[..IndexOf(s, '<')]); Normal(name) && Lacks(name, '<')
  {
    NearlyAngles(s);
    NameShape(s[..IndexOf(s, '<')]);
  }

  lemma AngleAddressShape(s: string, valid: Validator)
    requires NearlyNormal(s) && IndexOf(s, '<') >= 0
    ensures var a, b := FirstValid(Split(Inner(s), ','), valid), FirstValid(Split(Rest(s), ','), valid);
      Lacks(a, ',') && Normal(a) && Lacks(b, ',') && Normal(b)
  {
    NearlyAngles(s);
    FirstValidShape(Inner(s), valid);
    FirstValidShape(Rest(s), valid);
  }

  /** The address is normal and, when it stood in angle brackets, free of commas; the name is
      normal and free of '<'. */
  lemma ParsedShape(s: string, valid: Validator)
    requires Normal(s)
    ensures var f := ParseDecoded(s, valid);
      Normal(f.name) && Lacks(f.name, '<') && Normal(f.email) && (f.name != "" ==> Lacks(f.email, ','))
  {
    if s == "" {
    } else if IndexOf(s, '<') >= 0 {
      AngleParse(s, valid);
      AngleNameShape(s);
      AngleAddressShape(s, valid);
    } else {
      TrimNormal(s);
    }
  }

  lemma PrintIsNormal(e: string, n: string)
    requires Normal(e) && Normal(n) && e != ""
    ensures Normal(Print(From(e, n)))
  {
    if n != "" {
      NotSpace('<');
      NotSpace('>');
      NormalGlue("<", e);
      NormalGlue("<" + e, ">");
      NormalGlue(n, "<" + e + ">");
      assert n + " <" + e + ">" == n + " " + ("<" + e + ">");
    }
  }

  /** Reading a printed pair: all that can be lost is one pair of quotes around the name, or the
      whole pair when a bare address holds '<' or starts with '@'. */
  lemma PrintedParse(f: From, dec: Decoder)
    requires ValidAddress(f.email) && Normal(f.email) && Normal(f.name) && Lacks(f.name, '<')
    requires f.name != "" ==> Lacks(f.email, ',')
    requires !Contains(Print(f), "=?")
    ensures f.name != "" ==> ParseFromHeader(Print(f), dec) == f.(name := Unquoted(f.name))
    ensures f.name == "" ==> (ParseFromHeader(Print(f), dec) == f <==> Lacks(f.email, '<') && f.email[0] != '@')
  {
    PrintIsNormal(f.email, f.name);
    DecodedIsFixed(Print(f), dec);
    NormalIsFixed(f.email);
    NormalIsFixed(f.name);
    if f.name != "" {
      ParseNamed(f.email, f.name, ValidAddress);
    } else {
      ValidHasAt(f.email);
      ParseBare(f.email, ValidAddress);
    }
  }

  /** The printed form of a parsed header parses to the same pair exactly when the name is not
      still in quotes and, where there is no name, the bare address has no '<' and does not start
      with '@'. */
  lemma ReparseExact(raw: string, dec: Decoder)
    requires ParseFromHeader(raw, dec).email != "" && !Contains(Print(ParseFromHeader(raw, dec)), "=?")
    ensures var f := ParseFromHeader(raw, dec);
      ParseFromHeader(Print(f), dec) == f <==>
      if f.name != "" then !Quoted(f.name) else Lacks(f.email, '<') && f.email[0] != '@'
  {
    DecodedNormal(raw, dec);
    ParsedShape(Decoded(raw, dec), ValidAddress);
    PrintedParse(ParseFromHeader(raw, dec), dec);
  }

  lemma ValidHasAt(e: string)
    requires ValidAddress(e)
    ensures '@' in e
  {
    assert e[LastIndexOf(e, '@')] == '@';
  }

  /** The parser undoes the printer. */
  lemma ParserUndoesPrinter(e: string, n: string, dec: Decoder)
    requires ValidAddress(e) && Normal(e) && Lacks(e, ',') && Lacks(e, '<') && e[0] != '@'
    requires Normal(n) && Lacks(n, '<') && !Quoted(n)
    requires !Contains(Print(From(e, n)), "=?")
    ensures ParseFromHeader(Print(From(e, n)), dec) == From(e, n)
  {
    PrintedParse(From(e, n), dec);
  }

  /** A name in quotes is read without them. */
  lemma QuotesAreTaken(n: string)
    requires Trimmed(n)
    ensures StripQuotes("\"" + n + "\"") == n
  {
    var v := "\"" + n + "\"";
    NotSpace('"');
    TrimTrimmed(v);
    assert v[1..|v| - 1] == n;
    TrimTrimmed(n);
  }

  // ----- which texts are addresses -----

  /** At most 254 characters, '@' at `at` for the last time; before it at most 64 characters, no point at
      either end and none beside another; behind it at least four letters, digits, points, underscores
      and hyphens, a letter or an underscore first, no point last, no point beside a point or hyphen. */
  predicate AddressAt(s: string, at: int) {
    && |s| <= 254 && 1 <= at <= 64 && at + 5 <= |s| && s[at] == '@'
    && s[0] != '.' && s[at - 1] != '.'
    && (forall i :: 0 <= i < at - 1 ==> s[i] != '.' || s[i + 1] != '.')
    && DomainStart(s[at + 1]) && s[|s| - 1] != '.'
    && (forall i :: at < i < |s| ==> DomainChar(s[i]))
    && (forall i :: at < i < |s| - 1 ==> (s[i] == '.' ==> s[i + 1] !in {'.', '-'}) && (s[i] == '-' ==> s[i + 1] != '.'))
  }

  lemma PairInPart(s: string, lo: nat, hi: nat, pair: string)
    requires lo <= hi <= |s| && |pair| == 2
    ensures Contains(s[lo..hi], pair) <==> exists i :: lo <= i < hi - 1 && s[i] == pair[0] && s[i + 1] == pair[1]
  {
    var t := s[lo..hi];
    forall i
      ensures ContainsAt(t, pair, i) <==> lo <= lo + i < hi - 1 && s[lo + i] == pair[0] && s[lo + i + 1] == pair[1]
    {
      PairAt(t, pair, i);
    }
    if i :| lo <= i < hi - 1 && s[i] == pair[0] && s[i + 1] == pair[1] {
      assert ContainsAt(t, pair, i - lo);
    }
  }

  lemma LocalExactly(s: string, at: nat)
    requires 1 <= at <= |s|
    ensures ValidLocal(s[..at]) <==>
            at <= 64 && s[0] != '.' && s[at - 1] != '.' && forall i :: 0 <= i < at - 1 ==> s[i] != '.' || s[i + 1] != '.'
  {
    PairInPart(s, 0, at, "..");
    assert s[0..at] == s[..at];
  }

  lemma DomainExactly(s: string, lo: nat)
    requires lo < |s|
    ensures ValidDomain(s[lo..]) <==>
            && lo + 4 <= |s| && DomainStart(s[lo]) && s[|s| - 1] != '.'
            && (forall i :: lo <= i < |s| ==> DomainChar(s[i]))
            && (forall i :: lo <= i < |s| - 1 ==> (s[i] == '.' ==> s[i + 1] !in {'.', '-'}) && (s[i] == '-' ==> s[i + 1] != '.'))
  {
    var t := s[lo..];
    assert s[lo..|s|] == t;
    assert forall i :: lo <= i < |s| ==> s[i] == t[i - lo];
    PairInPart(s, lo, |s|, "..");
    PairInPart(s, lo, |s|, "-.");
    PairInPart(s, lo, |s|, ".-");
  }

  /** The texts the parser takes for addresses. */
  lemma ValidAddressExactly(s: string)
    ensures ValidAddress(s) <==> exists at :: AddressAt(s, at)
  {
    var at := LastIndexOf(s, '@');
    if 0 < at < |s| - 1 {
      LocalExactly(s, at);
      DomainExactly(s, at + 1);
      assert ValidAddress(s) <==> AddressAt(s, at);
    }
    forall k | AddressAt(s, k)
      ensures k == at
    {
      assert forall i :: k < i < |s| ==> s[i] != '@';
    }
  }

  // ----- where the address of a header stands -----

  /** The parts with the character between them. */
  function JoinedBy(parts: seq<string>, c: char): string {
    if |parts| == 0 then "" else if |parts| == 1 then parts[0] else parts[0] + [c] + JoinedBy(parts[1..], c)
  }

  lemma {:induction false} SplitUndoesJoin(parts: seq<string>, c: char)
    requires parts != [] && forall p :: p in parts ==> Lacks(p, c)
    ensures Split(JoinedBy(parts, c), c) == parts
  {
    assert parts[0] in parts;
    if |parts| == 1 {
      SplitLacking(parts[0], c);
    } else {
      SplitUndoesJoin(parts[1..], c);
      SplitFront(parts[0], JoinedBy(parts[1..], c), c);
    }
  }

  lemma {:induction false} SplitFront(p: string, s: string, c: char)
    requires Lacks(p, c)
    ensures Split(p + [c] + s, c) == [p] + Split(s, c)
  {
    var t := p + [c] + s;
    if p == "" {
      assert t[1..] == s;
    } else {
      assert t[1..] == p[1..] + [c] + s;
      SplitFront(p[1..], s, c);
      assert p == [p[0]] + p[1..];
    }
  }

  /** The k-th of the texts between the commas is an address, and none before it is. */
  predicate FirstAddressAt(parts: seq<string>, k: int, valid: Validator) {
    && 0 <= k < |parts| && TrimSpace(parts[k]) != "" && valid(TrimSpace(parts[k]))
    && forall i :: 0 <= i < k ==> TrimSpace(parts[i]) == "" || !valid(TrimSpace(parts[i]))
  }

  lemma LaterAddress(parts: seq<string>, k: int, valid: Validator)
    requires parts != []
    ensures k > 0 && FirstAddressAt(parts, k, valid) ==> FirstAddressAt(parts[1..], k - 1, valid)
    ensures k >= 0 && !FirstAddressAt(parts, 0, valid) && FirstAddressAt(parts[1..], k, valid) ==>
              FirstAddressAt(parts, k + 1, valid)
  {
    assert forall i :: 0 <= i < |parts[1..]| ==> parts[1..][i] == parts[i + 1];
  }

  lemma {:induction false} FirstValidIs(parts: seq<string>, k: int, valid: Validator)
    requires FirstAddressAt(parts, k, valid)
    ensures FirstValid(parts, valid) == TrimSpace(parts[k])
  {
    if k > 0 {
      LaterAddress(parts, k, valid);
      FirstValidIs(parts[1..], k - 1, valid);
    }
  }

  lemma {:induction false} SomeIsValid(parts: seq<string>, valid: Validator) returns (k: int)
    requires FirstValid(parts, valid) != ""
    ensures FirstAddressAt(parts, k, valid)
  {
    k := 0;
    if !FirstAddressAt(parts, 0, valid) {
      var m := SomeIsValid(parts[1..], valid);
      LaterAddress(parts, m, valid);
      k := m + 1;
    }
  }

  lemma FirstValidExactly(parts: seq<string>, valid: Validator)
    ensures forall k :: FirstAddressAt(parts, k, valid) ==> FirstValid(parts, valid) == TrimSpace(parts[k])
    ensures (forall k :: !FirstAddressAt(parts, k, valid)) ==> FirstValid(parts, valid) == ""
  {
    forall k | FirstAddressAt(parts, k, valid)
      ensures FirstValid(parts, valid) == TrimSpace(parts[k])
    {
      FirstValidIs(parts, k, valid);
    }
    if FirstValid(parts, valid) != "" {
      var k := SomeIsValid(parts, valid);
    }
  }

  /** A header with a bracket: the name stands before the first '<'. The address is the first one among
      the texts between commas inside the brackets, and if there is none, behind the last '>'. A
      bracket that is not closed reaches to the end. */
  lemma AngleHeader(n: string, inside: seq<string>, behind: seq<string>, valid: Validator)
    requires Lacks(n, '<') && inside != [] && behind != []
    requires forall p :: p in inside ==> Lacks(p, ',')
    requires forall p :: p in behind ==> Lacks(p, ',') && Lacks(p, '>')
    ensures var f := ParseDecoded(n + "<" + JoinedBy(inside, ',') + ">" + JoinedBy(behind, ','), valid);
      f.name == StripQuotes(n) &&
      (forall k :: FirstAddressAt(inside, k, valid) ==> f.email == TrimSpace(inside[k])) &&
      ((forall k :: !FirstAddressAt(inside, k, valid)) ==>
         (forall k :: FirstAddressAt(behind, k, valid) ==> f.email == TrimSpace(behind[k])) &&
         ((forall k :: !FirstAddressAt(behind, k, valid)) ==> f.email == ""))
  {
    var x, y := JoinedBy(inside, ','), JoinedBy(behind, ',');
    LacksJoined(behind, ',', '>');
    ClosedBracket(n, x, y);
    SplitUndoesJoin(inside, ',');
    SplitUndoesJoin(behind, ',');
    FirstValidExactly(inside, valid);
    FirstValidExactly(behind, valid);
  }

  lemma ClosedBracket(n: string, x: string, y: string)
    requires Lacks(n, '<') && Lacks(y, '>')
    ensures var s := n + "<" + x + ">" + y;
      s != "" && IndexOf(s, '<') == |n| && s[..|n|] == n && Inner(s) == x && Rest(s) == y
  {
    var s := n + "<" + x + ">" + y;
    assert s[|n|] == '<' && IndexOf(s, '<') == |n|;
    var close := |n| + 1 + |x|;
    assert s[close] == '>' && LastIndexOf(s, '>') == close by {
      assert forall i :: close < i < |s| ==> s[i] == y[i - close - 1];
    }
    assert s[|n| + 1..close] == x && s[close + 1..] == y;
  }

  lemma {:induction false} LacksJoined(parts: seq<string>, c: char, d: char)
    requires c != d && forall p :: p in parts ==> Lacks(p, d)
    ensures Lacks(JoinedBy(parts, c), d)
  {
    if parts != [] {
      assert parts[0] in parts;
      LacksJoined(parts[1..], c, d);
    }
  }

  lemma OpenBracket(n: string, inside: seq<string>, valid: Validator)
    requires Lacks(n, '<') && inside != [] && forall p :: p in inside ==> Lacks(p, ',') && Lacks(p, '>')
    ensures var f := ParseDecoded(n + "<" + JoinedBy(inside, ','), valid);
      f.name == StripQuotes(n) &&
      (forall k :: FirstAddressAt(inside, k, valid) ==> f.email == TrimSpace(inside[k])) &&
      ((forall k :: !FirstAddressAt(inside, k, valid)) ==> f.email == "")
  {
    LacksJoined(inside, ',', '>');
    Unclosed(n, JoinedBy(inside, ','));
    SplitUndoesJoin(inside, ',');
    FirstValidExactly(inside, valid);
    assert Split("", ',') == [""];
    assert FirstValid([""], valid) == "";
  }

  lemma Unclosed(n: string, x: string)
    requires Lacks(n, '<') && Lacks(x, '>')
    ensures var s := n + "<" + x;
      s != "" && IndexOf(s, '<') == |n| && s[..|n|] == n && Inner(s) == x && Rest(s) == ""
  {
    var s := n + "<" + x;
    assert s[|n|] == '<' && IndexOf(s, '<') == |n|;
    assert LastIndexOf(s, '>') < |n| by {
      assert forall i :: |n| < i < |s| ==> s[i] == x[i - |n| - 1];
    }
    assert s[|n| + 1..] == x;
  }

  // ----- encoded words -----

  /** w has the outer form of an encoded word, and its first "?=" ends it. */
  predicate WordShape(w: string) {
    && |w| >= 7 && HasPrefix(w, "=?") && ContainsAt(w, "?=", |w| - 2)
    && forall i :: 0 <= i < |w| - 2 ==> !ContainsAt(w, "?=", i)
  }

  lemma PairAt(s: string, sub: string, i: int)
    requires |sub| == 2
    ensures ContainsAt(s, sub, i) <==> 0 <= i < |s| - 1 && s[i] == sub[0] && s[i + 1] == sub[1]
  {
    if 0 <= i < |s| - 1 {
      assert s[i..i + 2] == [s[i], s[i + 1]] && sub == [sub[0], sub[1]];
    }
  }

  lemma ShiftAt(s: string, sub: string, i: nat)
    requires s != []
    ensures ContainsAt(s[1..], sub, i) <==> ContainsAt(s, sub, i + 1)
  {
    if i + 1 + |sub| <= |s| {
      assert s[1..][i..i + |sub|] == s[i + 1..i + 1 + |sub|];
    }
  }

  lemma {:induction false} FirstIs(s: string, sub: string, k: nat)
    requires ContainsAt(s, sub, k) && forall i :: 0 <= i < k ==> !ContainsAt(s, sub, i)
    ensures IndexOfSub(s, sub) == k
  {
    if k > 0 {
      assert !ContainsAt(s, sub, 0);
      forall i: nat
        ensures ContainsAt(s[1..], sub, i) <==> ContainsAt(s, sub, i + 1)
      {
        ShiftAt(s, sub, i);
      }
      FirstIs(s[1..], sub, k - 1);
    } else {
      assert s[..|sub|] == s[0..0 + |sub|];
    }
  }

  lemma WordStart(w: string, rest: string, dec: Decoder)
    requires WordShape(w) && dec(w).Some?
    ensures WordAt(w + rest, dec) == |w|
  {
    var s, k := w + rest, |w| - 2;
    assert s[..2] == w[..2];
    forall i | 0 <= i <= k
      ensures ContainsAt(s, "?=", i) <==> ContainsAt(w, "?=", i)
    {
      assert s[i..i + 2] == w[i..i + 2];
    }
    FirstIs(s, "?=", k);
    assert s[..|w|] == w;
  }

  /** An encoded word is replaced by its text. A blank after it is swallowed, and a question mark
      after that blank. */
  lemma WordIsDecoded(w: string, rest: string, dec: Decoder)
    requires WordShape(w) && dec(w).Some?
    ensures !HasPrefix(rest, " ") ==> DecodeWords(w + rest, dec) == dec(w).value + DecodeWords(rest, dec)
    ensures !HasPrefix(rest, "?") ==> DecodeWords(w + " " + rest, dec) == dec(w).value + DecodeWords(rest, dec)
    ensures DecodeWords(w + " ?" + rest, dec) == dec(w).value + DecodeWords(rest, dec)
  {
    AfterBlank(rest);
    WordPiece(w, rest, dec);
    WordPiece(w, " " + rest, dec);
    WordPiece(w, " ?" + rest, dec);
    Regroup(w, " ", rest);
    Regroup(w, " ?", rest);
  }

  lemma AfterBlank(rest: string)
    ensures !HasPrefix(rest, " ") ==> AfterWord(rest) == rest
    ensures !HasPrefix(rest, "?") ==> AfterWord(" " + rest) == rest
    ensures AfterWord(" ?" + rest) == rest
  {
    AfterWordAt(rest, 0);
    AfterWordAt(" " + rest, 0);
    AfterWordAt(" ?" + rest, 0);
    assert rest != [] ==> rest[..1] == [rest[0]];
    assert rest[0..] == rest && (" " + rest)[0..] == " " + rest && (" ?" + rest)[0..] == " ?" + rest;
    assert (" " + rest)[1..] == rest && (" ?" + rest)[2..] == rest;
  }

  lemma WordPiece(w: string, rest: string, dec: Decoder)
    requires WordShape(w) && dec(w).Some?
    ensures DecodeWords(w + rest, dec) == dec(w).value + DecodeWords(AfterWord(rest), dec)
  {
    WordStart(w, rest, dec);
    assert (w + rest)[..|w|] == w && (w + rest)[|w|..] == rest;
  }

  /** Text in which no encoded word can begin is copied. */
  lemma {:induction false} PlainIsCopied(a: string, rest: string, dec: Decoder)
    requires forall i :: 0 <= i < |a| ==> !ContainsAt(a + rest, "=?", i)
    ensures DecodeWords(a + rest, dec) == a + DecodeWords(rest, dec)
  {
    if a == [] {
      assert a + rest == rest;
    } else {
      assert (a + rest)[1..] == a[1..] + rest;
      CharIsCopied(a + rest, dec);
      NoneLater(a + rest, "=?", |a|);
      PlainIsCopied(a[1..], rest, dec);
      assert a == [a[0]] + a[1..];
      Regroup([a[0]], a[1..], DecodeWords(rest, dec));
    }
  }

  lemma CharIsCopied(s: string, dec: Decoder)
    requires s != [] && !ContainsAt(s, "=?", 0)
    ensures DecodeWords(s, dec) == [s[0]] + DecodeWords(s[1..], dec)
  {
    assert |s| >= 2 ==> s[0..2] == s[..2];
  }

  lemma NoneLater(s: string, sub: string, n: nat)
    requires s != [] && forall i :: 0 <= i < n ==> !ContainsAt(s, sub, i)
    ensures forall i :: 0 <= i < n - 1 ==> !ContainsAt(s[1..], sub, i)
  {
    forall i | 0 <= i < n - 1
      ensures !ContainsAt(s[1..], sub, i)
    {
      ShiftAt(s, sub, i);
    }
  }

  /** What only begins like an encoded word is copied too: nothing ends it, it ends too soon, or the
      decoder does not know it. */
  lemma FalseWordIsCopied(s: string, dec: Decoder)
    requires HasPrefix(s, "=?")
    requires forall k :: ContainsAt(s, "?=", k) && (forall i :: 0 <= i < k ==> !ContainsAt(s, "?=", i)) ==>
                           k <= 4 || dec(s[..k + 2]).None?
    ensures DecodeWords(s, dec) == "=" + DecodeWords(s[1..], dec)
  {
    assert s[0] == s[..2][0] == '=';
    var j := IndexOfSub(s, "?=");
    if j > 4 {
      FirstOccurrence(s, "?=");
    }
  }

  lemma {:induction false} FirstOccurrence(s: string, sub: string)
    requires sub != []
    ensures forall i :: 0 <= i < IndexOfSub(s, sub) ==> !ContainsAt(s, sub, i)
  {
    if IndexOfSub(s, sub) > 0 {
      FirstOccurrence(s[1..], sub);
      forall i | 0 <= i < IndexOfSub(s, sub)
        ensures !ContainsAt(s, sub, i)
      {
        if i > 0 {
          ShiftAt(s, sub, i - 1);
        }
      }
    }
  }

  /** Words, each with a blank after it. */
  function Spaced(words: seq<string>): string {
    if words == [] then "" else words[0] + " " + Spaced(words[1..])
  }

  /** The texts of the words, one after the other. */
  function Texts(words: seq<string>, dec: Decoder): string
    requires forall w :: w in words ==> dec(w).Some?
  {
    if words == [] then "" else dec(words[0]).value + Texts(words[1..], dec)
  }

  lemma {:induction false} WordsAreJoined(words: seq<string>, rest: string, dec: Decoder)
    requires forall w :: w in words ==> WordShape(w) && dec(w).Some?
    requires !HasPrefix(rest, "?")
    ensures DecodeWords(Spaced(words) + rest, dec) == Texts(words, dec) + DecodeWords(rest, dec)
  {
    if words == [] {
      assert Spaced(words) + rest == rest;
    } else {
      var w, more := words[0], Spaced(words[1..]) + rest;
      assert Spaced(words) + rest == w + " " + more;
      assert !HasPrefix(more, "?") by {
        if words[1..] != [] {
          assert words[1] in words && more[0] == words[1][0] == words[1][..2][0] == '=';
        } else {
          assert more == rest;
        }
      }
      WordIsDecoded(w, more, dec);
      WordsAreJoined(words[1..], rest, dec);
      Regroup(dec(w).value, Texts(words[1..], dec), DecodeWords(rest, dec));
    }
  }

  lemma NoWordInAngles(e: string)
    requires !Contains(e, "=?")
    ensures !Contains("<" + e + ">", "=?")
  {
    var s := "<" + e + ">";
    if i :| 0 <= i <= |s| && ContainsAt(s, "=?", i) {
      assert s[i] == s[i..i + 2][0] == '=' && s[i + 1] == s[i..i + 2][1] == '?';
      assert i >= 1 && i + 1 <= |e|;
      assert e[i - 1..i + 1] == "=?";
      assert ContainsAt(e, "=?", i - 1);
    }
  }

  /** A name of one or more encoded words is read as their texts run together: the blanks between the
      words and the one before the bracket are swallowed. */
  lemma EncodedNameIsRead(words: seq<string>, e: string, dec: Decoder)
    requires forall w :: w in words ==> WordShape(w) && dec(w).Some?
    requires ValidAddress(e) && Normal(e) && Lacks(e, ',') && !Contains(e, "=?")
    requires var n := Texts(words, dec); Normal(n) && Lacks(n, '<') && !Quoted(n)
    ensures ParseFromHeader(Spaced(words) + "<" + e + ">", dec) == From(e, Texts(words, dec))
  {
    var n := Texts(words, dec);
    EncodedLine(words, e, dec);
    BracketedParse(e, n, ValidAddress);
  }

  lemma LineDecodes(words: seq<string>, e: string, dec: Decoder)
    requires forall w :: w in words ==> WordShape(w) && dec(w).Some?
    requires !Contains(e, "=?")
    ensures DecodeWords(Spaced(words) + "<" + e + ">", dec) == Texts(words, dec) + ("<" + e + ">")
  {
    var angle := "<" + e + ">";
    Regroup(Spaced(words), "<", e);
    Regroup(Spaced(words), "<" + e, ">");
    assert angle[..1] == "<";
    WordsAreJoined(words, angle, dec);
    NoWordInAngles(e);
    NoWordsToDecode(angle, dec);
  }

  lemma EncodedLine(words: seq<string>, e: string, dec: Decoder)
    requires forall w :: w in words ==> WordShape(w) && dec(w).Some?
    requires Normal(e) && e != "" && !Contains(e, "=?") && Normal(Texts(words, dec))
    ensures Decoded(Spaced(words) + "<" + e + ">", dec) == Texts(words, dec) + ("<" + e + ">")
  {
    LineDecodes(words, e, dec);
    NormalAngles(Texts(words, dec), e);
  }

  lemma NormalAngles(n: string, e: string)
    requires Normal(n) && Normal(e) && e != ""
    ensures TrimSpace(JoinFields(n + ("<" + e + ">"))) == n + ("<" + e + ">")
  {
    AnglesNormal(n, e);
    NormalIsFixed(n + ("<" + e + ">"));
  }

  lemma AnglesNormal(n: string, e: string)
    requires Normal(n) && Normal(e) && e != ""
    ensures Normal(n + ("<" + e + ">"))
  {
    NotSpace('<');
    NotSpace('>');
    NormalGlue("<", e);
    NormalGlue("<" + e, ">");
    if n != "" {
      NormalGlue(n, "<" + e + ">");
    } else {
      assert n + ("<" + e + ">") == "<" + e + ">";
    }
  }

  lemma BracketedParse(e: string, n: string, valid: Validator)
    requires Trimmed(n) && Lacks(n, '<') && !Quoted(n)
    requires e != "" && valid(e) && Trimmed(e) && Lacks(e, ',')
    ensures ParseDecoded(n + ("<" + e + ">"), valid) == From(e, n)
  {
    BracketedParts(e, n);
    StripPlain(n);
    FirstOfOne(e, valid);
  }

  lemma StripPlain(n: string)
    requires Trimmed(n) && !Quoted(n)
    ensures StripQuotes(n) == n
  {
    TrimTrimmed(n);
  }

  lemma FirstOfOne(e: string, valid: Validator)
    requires e != "" && valid(e) && Trimmed(e) && Lacks(e, ',')
    ensures FirstValid(Split(e, ','), valid) == e
  {
    TrimTrimmed(e);
    SplitLacking(e, ',');
  }

  lemma BracketedParts(e: string, n: string)
    requires Lacks(n, '<')
    ensures var s := n + ("<" + e + ">");
      s != "" && IndexOf(s, '<') == |n| && s[..|n|] == n && Inner(s) == e
  {
    ClosedBracket(n, e, "");
    assert n + ("<" + e + ">") == n + "<" + e + ">" + "";
  }

  // ----- which encoded words are read -----

  function Marks(s: string): nat { if s == [] then 0 else (if s[0] == '?' then 1 else 0) + Marks(s[1..]) }

  /** The decoder knows only texts with four question marks. */
  ghost predicate FourMarks(dec: Decoder) { forall s :: dec(s).Some? ==> Marks(s) == 4 }

  lemma {:induction false} MarksAppend(a: string, b: string)
    ensures Marks(a + b) == Marks(a) + Marks(b)
  {
    if a == [] {
      assert a + b == b;
    } else {
      assert (a + b)[1..] == a[1..] + b;
      MarksAppend(a[1..], b);
    }
  }

  lemma {:induction false} MarksLacking(s: string)
    requires Lacks(s, '?')
    ensures Marks(s) == 0
  {
    if s != [] {
      MarksLacking(s[1..]);
    }
  }

  /** What stands before the text of an encoded word. */
  function WordHead(charset: string, encoding: string): string { "=?" + charset + "?" + encoding }

  predicate Token(s: string) { s != "" && Lacks(s, '?') && Lacks(s, '=') }

  lemma HeadShape(charset: string, encoding: string)
    requires Token(charset) && Token(encoding)
    ensures var h := WordHead(charset, encoding);
      |h| >= 5 && h[..2] == "=?" && h[|h| - 1] != '=' && Marks(h + "?=") == 3 &&
      (forall i :: 0 <= i < |h| - 1 && h[i] == '?' ==> h[i + 1] != '=') &&
      (forall i :: 0 < i < |h| ==> h[i] != '=') && h[|h| - 1] != '?'
  {
    var h := WordHead(charset, encoding);
    assert h[..2] == "=?";
    assert forall i :: 2 <= i < 2 + |charset| ==> h[i] == charset[i - 2];
    assert forall i :: 3 + |charset| <= i < |h| ==> h[i] == encoding[i - 3 - |charset|];
    assert h[2 + |charset|] == '?';
    MarksAppend("=?" + charset + "?", encoding);
    MarksAppend("=?" + charset, "?");
    MarksAppend("=?", charset);
    MarksAppend(h, "?=");
    MarksLacking(charset);
    MarksLacking(encoding);
    assert Marks("=?") == 1 by {
      assert "=?"[1..] == "?" && "?"[1..] == "";
    }
    assert Marks("?=") == 1 by {
      assert "?="[1..] == "=" && "="[1..] == "";
    }
    assert Marks("?") == 1 by {
      assert "?"[1..] == "";
    }
  }

  /** Nothing is decoded in a text that begins an encoded word nowhere. */
  lemma {:induction false} NoWordAnywhere(s: string, dec: Decoder)
    requires forall i :: 0 <= i < |s| ==> WordAt(s[i..], dec) == 0
    ensures DecodeWords(s, dec) == s
  {
    if s != [] {
      assert s[0..] == s;
      forall i | 0 <= i < |s[1..]|
        ensures WordAt(s[1..][i..], dec) == 0
      {
        assert s[1..][i..] == s[i + 1..];
      }
      NoWordAnywhere(s[1..], dec);
      assert s == [s[0]] + s[1..];
    }
  }

  /** A text whose first "?=" comes at k, where the decoder does not know what it ends, and in which
      "=?" stands only at the very beginning or just before the last character. */
  lemma SplitWordStays(w: string, k: nat, dec: Decoder)
    requires 5 <= k && k + 2 < |w| && w[k] == '?' && w[k + 1] == '=' && Marks(w[..k + 2]) == 3 && FourMarks(dec)
    requires forall i :: 0 <= i < k ==> !(w[i] == '?' && w[i + 1] == '=')
    requires forall i :: 0 < i < |w| - 3 ==> !(w[i] == '=' && w[i + 1] == '?')
    ensures DecodeWords(w, dec) == w
  {
    forall i | 0 <= i < |w|
      ensures WordAt(w[i..], dec) == 0
    {
      if i == 0 {
        assert w[0..] == w;
        NoWordAtFront(w, k, dec);
      } else {
        NoWordBehind(w, i, dec);
      }
    }
    NoWordAnywhere(w, dec);
  }

  lemma NoWordAtFront(w: string, k: nat, dec: Decoder)
    requires 5 <= k && k + 2 < |w| && w[k] == '?' && w[k + 1] == '=' && Marks(w[..k + 2]) == 3 && FourMarks(dec)
    requires forall i :: 0 <= i < k ==> !(w[i] == '?' && w[i + 1] == '=')
    ensures WordAt(w, dec) == 0
  {
    forall m | 0 <= m <= k
      ensures ContainsAt(w, "?=", m) <==> m == k
    {
      PairAt(w, "?=", m);
    }
    FirstIs(w, "?=", k);
  }

  lemma NoWordBehind(w: string, i: nat, dec: Decoder)
    requires 0 < i < |w| && (i < |w| - 3 ==> !(w[i] == '=' && w[i + 1] == '?'))
    ensures WordAt(w[i..], dec) == 0
  {
    var s := w[i..];
    if |s| > 3 {
      assert s[0] == w[i] && s[1] == w[i + 1];
      assert s[..2] == [s[0], s[1]];
    }
  }

  /** The search for the end of an encoded word finds the question mark before its text when the text
      begins with '=', as the quoted form of any letter outside ASCII does: such a word stays as it
      is. Every other word the decoder knows is decoded. */
  lemma EncodedWordIsReadExactly(charset: string, encoding: string, text: string, dec: Decoder)
    requires Token(charset) && Token(encoding) && Lacks(text, '?') && FourMarks(dec)
    ensures var w := WordHead(charset, encoding) + "?" + text + "?=";
      dec(w).Some? ==> DecodeWords(w, dec) == if HasPrefix(text, "=") then w else dec(w).value
  {
    var h := WordHead(charset, encoding);
    var w := h + "?" + text + "?=";
    HeadShape(charset, encoding);
    assert forall i :: 0 <= i < |h| ==> w[i] == h[i];
    assert w[|h|] == '?' && w[|w| - 2] == '?' && w[|w| - 1] == '=';
    assert forall i :: |h| < i < |w| - 2 ==> w[i] == text[i - |h| - 1];
    assert w[..2] == h[..2];
    if HasPrefix(text, "=") {
      assert text[0] == text[..1][0] == '=';
      assert w[..|h| + 2] == h + "?=";
      SplitWordStays(w, |h|, dec);
    } else if dec(w).Some? {
      assert text != [] ==> text[..1] == [text[0]];
      forall i | 0 <= i < |w| - 2
        ensures !ContainsAt(w, "?=", i)
      {
        PairAt(w, "?=", i);
      }
      assert w[|w| - 2..] == "?=";
      assert w + "" == w;
      WordIsDecoded(w, "", dec);
    }
  }
}
