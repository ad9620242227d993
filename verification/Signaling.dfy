/**
 The signaling wire format: an escaping printer, a substring-searching parser and newline
 framing over whatever chunks the socket delivers.
 */
module Signaling {

  import opened Base

  datatype Message =
    | Offer(sdp: string)
    | Answer(sdp: string)
    | Ice(mid: string, mline: int, candidate: string)

  // ---- substring search (std::string::find) ------------------------------------

  predicate OccursAt(s: string, p: string, k: nat) {
    k + |p| <= |s| && s[k..k + |p|] == p
  }

  function FindFrom(s: string, p: string, i: nat): (r: Option<nat>)
    ensures r.Some? ==> i <= r.value && OccursAt(s, p, r.value)
                        && (forall k: nat :: i <= k < r.value ==> !OccursAt(s, p, k))
    ensures r.None? ==> (forall k: nat :: i <= k ==> !OccursAt(s, p, k))
    decreases |s| - i
  {
    if i + |p| > |s| then None
    else if s[i..i + |p|] == p then Some(i)
    else FindFrom(s, p, i + 1)
  }

  function Find(s: string, p: string): (r: Option<nat>)
    ensures r.Some? ==> OccursAt(s, p, r.value) && (forall k: nat :: k < r.value ==> !OccursAt(s, p, k))
    ensures r.None? ==> (forall k: nat :: !OccursAt(s, p, k))
  {
    FindFrom(s, p, 0)
  }

  predicate Has(s: string, p: string) {
    Find(s, p).Some?
  }

  lemma FindIs(s: string, p: string, at: nat)
    requires OccursAt(s, p, at)
    requires forall k: nat :: OccursAt(s, p, k) ==> k == at
    ensures Find(s, p) == Some(at)
  {
  }

  // ---- escaping ------------------------------------------------------------------

  /** `crlf` tells the session-description fields, which also escape line breaks. */
  function EscapeChar(c: char, crlf: bool): string {
    if c == '"' then ['\\', '"']
    else if c == '\\' then ['\\', '\\']
    else if crlf && c == '\n' then ['\\', 'n']
    else if crlf && c == '\r' then ['\\', 'r']
    else [c]
  }

  function Escape(s: string, crlf: bool): string {
    if s == "" then "" else EscapeChar(s[0], crlf) + Escape(s[1..], crlf)
  }

  function UnescapeChar(c: char, crlf: bool): char {
    if crlf && c == 'n' then '\n' else if crlf && c == 'r' then '\r' else c
  }

  /** Reads a field up to its closing quote or the end of the line. */
  function ReadField(t: string, crlf: bool): string {
    if t == "" then ""
    else if t[0] == '\\' && |t| > 1 then [UnescapeChar(t[1], crlf)] + ReadField(t[2..], crlf)
    else if t[0] == '"' then ""
    else [t[0]] + ReadField(t[1..], crlf)
  }

  lemma ReadPlainChar(c: char, crlf: bool, tail: string)
    requires c != '\\' && c != '"'
    ensures ReadField([c] + tail, crlf) == [c] + ReadField(tail, crlf)
  {
    assert ([c] + tail)[1..] == tail;
  }

  lemma ReadPair(c: char, crlf: bool, tail: string)
    ensures ReadField(['\\', c] + tail, crlf) == [UnescapeChar(c, crlf)] + ReadField(tail, crlf)
  {
    var t := ['\\', c] + tail;
    assert t[0] == '\\' && t[1] == c && t[2..] == tail;
  }

  lemma ReadEscapedChar(c: char, crlf: bool, tail: string)
    ensures ReadField(EscapeChar(c, crlf) + tail, crlf) == [c] + ReadField(tail, crlf)
  {
    hide ReadField;
    var e := EscapeChar(c, crlf);
    if |e| == 1 {
      ReadPlainChar(c, crlf, tail);
    } else {
      ReadPair(e[1], crlf, tail);
    }
  }

  lemma {:induction false} ReadFieldOfEscape(s: string, crlf: bool, rest: string)
    ensures ReadField(Escape(s, crlf) + "\"" + rest, crlf) == s
  {
    if s == "" {
      assert ("" + "\"" + rest)[0] == '"';
    } else {
      ReadFieldOfEscape(s[1..], crlf, rest);
      hide ReadField, EscapeChar;
      var e, t := EscapeChar(s[0], crlf), Escape(s[1..], crlf);
      ReadEscapedChar(s[0], crlf, t + "\"" + rest);
      Assoc(e, t, "\"");
      Assoc(e, t + "\"", rest);
      assert [s[0]] + s[1..] == s;
    }
  }

  lemma EscapeCons(c: char, t: string, crlf: bool)
    ensures Escape([c] + t, crlf) == EscapeChar(c, crlf) + Escape(t, crlf)
  {
    assert ([c] + t)[1..] == t;
  }

  lemma {:induction false} EscapeAppend(s: string, c: char, crlf: bool)
    ensures Escape(s + [c], crlf) == Escape(s, crlf) + EscapeChar(c, crlf)
  {
    if s == "" {
      EscapeCons(c, "", crlf);
      assert s + [c] == [c] + "" && EscapeChar(c, crlf) + "" == EscapeChar(c, crlf);
    } else {
      EscapeAppend(s[1..], c, crlf);
      hide Escape, EscapeChar;
      EscapeCons(s[0], s[1..], crlf);
      EscapeCons(s[0], s[1..] + [c], crlf);
      assert s == [s[0]] + s[1..];
      Assoc([s[0]], s[1..], [c]);
      Assoc(EscapeChar(s[0], crlf), Escape(s[1..], crlf), EscapeChar(c, crlf));
    }
  }

  method EscapeField(s: string, crlf: bool) returns (out: string)
    ensures out == Escape(s, crlf)
  {
    out := "";
    for i := 0 to |s|
      invariant out == Escape(s[..i], crlf)
    {
      EscapeAppend(s[..i], s[i], crlf);
      assert s[..i + 1] == s[..i] + [s[i]];
      var c := s[i];
      if c == '"' {
        out := out + ['\\', '"'];
      } else if c == '\\' {
        out := out + ['\\', '\\'];
      } else if crlf && c == '\n' {
        out := out + ['\\', 'n'];
      } else if crlf && c == '\r' {
        out := out + ['\\', 'r'];
      } else {
        out := out + [c];
      }
    }
    assert s[..|s|] == s;
  }

  method UnescapeField(line: string, start: nat, crlf: bool) returns (field: string)
    requires start <= |line|
    ensures field == ReadField(line[start..], crlf)
  {
    hide ReadField;
    field := "";
    var i := start;
    while i < |line|
      invariant start <= i <= |line|
      invariant field + ReadField(line[i..], crlf) == ReadField(line[start..], crlf)
    {
      ReadFieldStep(line, i, crlf);
      if line[i] == '\\' && i + 1 < |line| {
        var c := line[i + 1];
        if crlf && c == 'n' {
          c := '\n';
        } else if crlf && c == 'r' {
          c := '\r';
        }
        Assoc(field, [c], ReadField(line[i + 2..], crlf));
        field := field + [c];
        i := i + 2;
      } else if line[i] == '"' {
        return;
      } else {
        Assoc(field, [line[i]], ReadField(line[i + 1..], crlf));
        field := field + [line[i]];
        i := i + 1;
      }
    }
    ReadFieldStep(line, i, crlf);
  }

  lemma ReadFieldStep(line: string, i: nat, crlf: bool)
    requires i <= |line|
    ensures ReadField(line[i..], crlf) ==
              if i == |line| then ""
              else if line[i] == '\\' && i + 1 < |line| then
                [UnescapeChar(line[i + 1], crlf)] + ReadField(line[i + 2..], crlf)
              else if line[i] == '"' then ""
              else [line[i]] + ReadField(line[i + 1..], crlf)
  {
    var t := line[i..];
    if i < |line| {
      assert t[1..] == line[i + 1..];
      if i + 1 < |line| {
        assert t[2..] == line[i + 2..];
      }
    }
  }

  // ---- decimal integers --------------------------------------------------------------

  predicate IsDigit(c: char) { '0' <= c <= '9' }

  function Digits(n: nat): string {
    var last := [(n % 10 + '0' as int) as char];
    if n < 10 then last else Digits(n / 10) + last
  }

  function Decimal(n: int): string {
    if n < 0 then "-" + Digits(-n) else Digits(n)
  }

  function ReadDigits(t: string, acc: nat): int {
    if t != "" && IsDigit(t[0]) then ReadDigits(t[1..], acc * 10 + (t[0] as int - '0' as int)) else acc
  }

  predicate IsSpace(c: char) {
    c == ' ' || '\t' <= c <= '\r'
  }

  function SkipSpaces(t: string): string {
    if t != "" && IsSpace(t[0]) then SkipSpaces(t[1..]) else t
  }

  function ReadSigned(t: string): int {
    if t == "" then 0
    else if t[0] == '-' then -ReadDigits(t[1..], 0)
    else if t[0] == '+' then ReadDigits(t[1..], 0)
    else ReadDigits(t, 0)
  }

  /** C's atoi; overflow is not represented. */
  function Atoi(t: string): int {
    ReadSigned(SkipSpaces(t))
  }

  lemma ReadOneDigit(d: nat, rest: string, acc: nat)
    requires d < 10
    ensures var c := (d + '0' as int) as char;
            IsDigit(c) && ReadDigits([c] + rest, acc) == ReadDigits(rest, acc * 10 + d)
  {
    assert ([(d + '0' as int) as char] + rest)[1..] == rest;
  }

  lemma {:induction false} ReadDigitsOfDigits(n: nat, rest: string)
    ensures |Digits(n)| > 0 && (forall k :: 0 <= k < |Digits(n)| ==> IsDigit(Digits(n)[k]))
    ensures ReadDigits(Digits(n) + rest, 0) == ReadDigits(rest, n)
  {
    var last := [(n % 10 + '0' as int) as char];
    ReadOneDigit(n % 10, rest, if n < 10 then 0 else n / 10);
    if n < 10 {
    } else {
      ReadDigitsOfDigits(n / 10, last + rest);
      assert Digits(n) == Digits(n / 10) + last;
      hide Digits, ReadDigits;
      Assoc(Digits(n / 10), last, rest);
    }
  }

  lemma ReadDecimal(n: int, rest: string)
    requires rest == "" || !IsDigit(rest[0])
    ensures ReadSigned(Decimal(n) + rest) == n
    ensures !IsSpace(Decimal(n)[0])
  {
    var a := if n < 0 then -n else n;
    var d := Digits(a);
    ReadDigitsOfDigits(a, rest);
    assert ReadDigits(rest, a) == a;
    hide Digits, ReadDigits;
    if n < 0 {
      assert ("-" + d + rest)[1..] == d + rest;
    } else {
      assert (d + rest)[0] == d[0];
    }
  }

  lemma AtoiOfDecimal(n: int, rest: string)
    requires rest == "" || !IsDigit(rest[0])
    ensures Atoi(Decimal(n) + rest) == n
  {
    ReadDecimal(n, rest);
    ReadDigitsOfDigits(if n < 0 then -n else n, "");
    assert (Decimal(n) + rest)[0] == Decimal(n)[0];
  }

  /** An index is printed in plain decimal: no sign unless it is negative, and no leading zero. */
  lemma {:induction false} DecimalIsPlain(n: int)
    ensures n < 0 ==> Decimal(n) == "-" + Decimal(-n)
    ensures n >= 0 ==> forall k :: 0 <= k < |Decimal(n)| ==> IsDigit(Decimal(n)[k])
    ensures n == 0 ==> Decimal(n) == "0"
    ensures n > 0 ==> Decimal(n)[..1] != "0"
    decreases if n < 0 then 1 - n else n
  {
    if n >= 0 {
      ReadDigitsOfDigits(n, "");
      if n >= 10 {
        DecimalIsPlain(n / 10);
        ReadDigitsOfDigits(n / 10, "");
        assert Decimal(n)[..1] == Decimal(n / 10)[..1];
      }
    }
  }

  /** White space as C's isspace has it. */
  predicate IsBlank(c: char) {
    c in {' ', '\t', '\n', 11 as char, 12 as char, '\r'}
  }

  lemma {:induction false} SkipsBlanks(blanks: string, t: string)
    requires forall k :: 0 <= k < |blanks| ==> IsBlank(blanks[k])
    ensures Atoi(blanks + t) == Atoi(t)
  {
    if blanks == "" {
      assert blanks + t == t;
    } else {
      SkipsBlanks(blanks[1..], t);
      hide ReadSigned;
      assert (blanks + t)[1..] == blanks[1..] + t;
      assert IsBlank(blanks[0]) && IsSpace(blanks[0]);
    }
  }

  lemma AtoiOfPlus(n: nat, rest: string)
    requires rest == "" || !IsDigit(rest[0])
    ensures Atoi("+" + (Decimal(n) + rest)) == n
  {
    var t := "+" + (Decimal(n) + rest);
    assert t[0] == '+' && t[1..] == Decimal(n) + rest;
    ReadDigitsOfDigits(n, rest);
  }

  /** White space and a plus sign in front of an index, as another printer may put them, change nothing. */
  lemma AtoiOfForeign(blanks: string, n: nat, rest: string)
    requires forall k :: 0 <= k < |blanks| ==> IsBlank(blanks[k])
    requires rest == "" || !IsDigit(rest[0])
    ensures Atoi(blanks + (Decimal(n) + rest)) == n
    ensures Atoi(blanks + ("+" + (Decimal(n) + rest))) == n
  {
    hide Atoi, Decimal;
    SkipsBlanks(blanks, Decimal(n) + rest);
    SkipsBlanks(blanks, "+" + (Decimal(n) + rest));
    AtoiOfDecimal(n, rest);
    AtoiOfPlus(n, rest);
  }

  // ---- the printed object as a list of members ------------------------------------------

  datatype Value = Text(body: string) | Number(n: int)
  datatype Member = Member(key: string, value: Value)

  predicate IsLetter(c: char) { 'a' <= c <= 'z' || 'A' <= c <= 'Z' }

  predicate IsWord(w: string) {
    w != "" && forall k :: 0 <= k < |w| ==> IsLetter(w[k])
  }

  /** Every quote in the body has a backslash in front of it. */
  predicate QuotesEscaped(body: string) {
    forall k :: 0 <= k < |body| && body[k] == '"' ==> k > 0 && body[k - 1] == '\\'
  }

  predicate Safe(m: Member) {
    IsWord(m.key) && (m.value.Text? ==> QuotesEscaped(m.value.body))
  }

  function KeyPattern(w: string): string { "\"" + w + "\":" }

  function ValueText(v: Value): string {
    match v
    case Text(body) => "\"" + body + "\""
    case Number(n) => Decimal(n)
  }

  function Head(m: Member, last: bool): string {
    KeyPattern(m.key) + ValueText(m.value) + (if last then "" else ",")
  }

  function Members(ms: seq<Member>): string {
    if ms == [] then "}" else Head(ms[0], |ms| == 1) + Members(ms[1..])
  }

  function Offset(ms: seq<Member>, i: nat): nat
    requires i <= |ms|
  {
    if i == 0 then 0 else |Head(ms[0], |ms| == 1)| + Offset(ms[1..], i - 1)
  }

  lemma {:induction false} EscapeQuotes(s: string, crlf: bool)
    ensures QuotesEscaped(Escape(s, crlf))
  {
    if s == "" {
    } else {
      EscapeQuotes(s[1..], crlf);
      var h, t := EscapeChar(s[0], crlf), Escape(s[1..], crlf);
      forall k | 0 <= k < |h + t| && (h + t)[k] == '"' ensures k > 0 && (h + t)[k - 1] == '\\' {
        if k >= |h| {
          assert t[k - |h|] == '"';
        }
      }
    }
  }

  lemma Mismatch(s: string, p: string, k: nat, j: nat)
    requires j < |p| && k + j < |s| && s[k + j] != p[j]
    ensures !OccursAt(s, p, k)
  {
    if k + |p| <= |s| {
      assert s[k..k + |p|][j] == s[k + j];
    }
  }

  /** A key pattern is a quote, letters, a quote and a colon. */
  lemma KeyPatternChars(w: string)
    requires IsWord(w)
    ensures var p := KeyPattern(w);
            && |p| == |w| + 3
            && p[0] == '"' && p[|w| + 1] == '"' && p[|w| + 2] == ':'
            && (forall j :: 1 <= j <= |w| ==> p[j] == w[j - 1] && IsLetter(p[j]))
  {
  }

  lemma OccursAtTail(h: string, t: string, p: string, k: nat)
    requires |h| <= k
    ensures OccursAt(h + t, p, k) <==> OccursAt(t, p, k - |h|)
  {
    if k + |p| <= |h| + |t| {
      assert (h + t)[k..k + |p|] == t[k - |h|..k - |h| + |p|];
    }
  }

  /** Inside a text value, from its opening to its closing quote, no key pattern begins. */
  lemma NoKeyInText(s: string, open: nat, body: string, w: string, k: nat)
    requires IsWord(w) && QuotesEscaped(body)
    requires open + |body| + 2 < |s|
    requires s[open + 1..open + 1 + |body|] == body && s[open + 1 + |body|] == '"'
    requires s[open + 2 + |body|] == ',' || s[open + 2 + |body|] == '}'
    requires open <= k <= open + 1 + |body|
    ensures !OccursAt(s, KeyPattern(w), k)
  {
    var p := KeyPattern(w);
    KeyPatternChars(w);
    var close := open + 1 + |body|;
    var e := k + 1 + |w|;
    if k == close {
      Mismatch(s, p, k, 1);
    } else if close < e {
      Mismatch(s, p, k, close - k);
    } else if e == close {
      Mismatch(s, p, k, |w| + 2);
    } else if s[e] != '"' {
      Mismatch(s, p, k, |w| + 1);
    } else {
      assert forall j :: 0 <= j < |body| ==> body[j] == s[open + 1..open + 1 + |body|][j] == s[open + 1 + j];
      assert body[e - open - 1] == '"';
      Mismatch(s, p, k, |w|);
    }
  }

  lemma NoDigitIsQuote(n: int)
    ensures forall k :: 0 <= k < |Decimal(n)| ==> Decimal(n)[k] != '"'
  {
    ReadDigitsOfDigits(if n < 0 then -n else n, "");
  }

  lemma KeyInOwnName(s: string, key: string, w: string, k: nat)
    requires IsWord(w) && IsWord(key) && OccursAt(s, KeyPattern(key), 0)
    requires k < |KeyPattern(key)| && !(k == 0 && key == w)
    ensures !OccursAt(s, KeyPattern(w), k)
  {
    var p, q := KeyPattern(w), KeyPattern(key);
    KeyPatternChars(w);
    KeyPatternChars(key);
    assert forall j :: 0 <= j < |q| ==> s[j] == s[0..|q|][j] == q[j];
    if k == |key| + 1 {
      Mismatch(s, p, k, 1);
    } else if k > 0 {
      Mismatch(s, p, k, 0);
    } else if |w| < |key| {
      Mismatch(s, p, 0, |w| + 1);
    } else if |w| > |key| {
      Mismatch(s, p, 0, |key| + 1);
    } else {
      var j :| 0 <= j < |w| && w[j] != key[j];
      Mismatch(s, p, 0, j + 1);
    }
  }

  lemma BodyOf(s: string, at: nat, body: string)
    requires at + |body| + 2 <= |s| && s[at..at + |body| + 2] == "\"" + body + "\""
    ensures s[at + 1..at + 1 + |body|] == body
  {
    var v := s[at..at + |body| + 2];
    var t := s[at + 1..at + 1 + |body|];
    forall j | 0 <= j < |body| ensures t[j] == body[j] {
      assert t[j] == s[at + (1 + j)] == v[1 + j] == ("\"" + body + "\"")[1 + j];
    }
  }

  lemma KeyInValue(s: string, at: nat, value: Value, w: string, k: nat)
    requires IsWord(w) && (value.Text? ==> QuotesEscaped(value.body))
    requires at <= k < at + |ValueText(value)| < |s|
    requires s[at..at + |ValueText(value)|] == ValueText(value)
    requires s[at + |ValueText(value)|] == ',' || s[at + |ValueText(value)|] == '}'
    ensures !OccursAt(s, KeyPattern(w), k)
  {
    var v := ValueText(value);
    assert forall j :: 0 <= j < |v| ==> v[j] == s[at..at + |v|][j] == s[at + j];
    match value {
      case Text(body) =>
        BodyOf(s, at, body);
        NoKeyInText(s, at, body, w, k);
      case Number(n) =>
        NoDigitIsQuote(n);
        KeyPatternChars(w);
        Mismatch(s, KeyPattern(w), k, 0);
    }
  }

  lemma MembersHeadShape(ms: seq<Member>)
    requires ms != []
    ensures var p, v := KeyPattern(ms[0].key), ValueText(ms[0].value);
            var s := Members(ms);
            && OccursAt(s, p, 0)
            && |p| + |v| < |s|
            && s[|p|..|p| + |v|] == v
            && (s[|p| + |v|] == ',' || s[|p| + |v|] == '}')
            && |Head(ms[0], |ms| == 1)| == |p| + |v| + (if |ms| == 1 then 0 else 1)
  {
    var p, v := KeyPattern(ms[0].key), ValueText(ms[0].value);
    var rest := (if |ms| == 1 then "" else ",") + Members(ms[1..]);
    var s := Members(ms);
    assert s == p + v + rest;
    assert s[0..|p|] == p;
    assert s[|p| + |v|] == rest[0];
  }

  /** Within the first member, a key pattern begins only at the member's own key. */
  lemma KeyInHead(ms: seq<Member>, w: string, k: nat)
    requires ms != [] && Safe(ms[0]) && IsWord(w)
    requires k < |Head(ms[0], |ms| == 1)| && !(k == 0 && ms[0].key == w)
    ensures !OccursAt(Members(ms), KeyPattern(w), k)
  {
    hide Members, ValueText, Head;
    var s := Members(ms);
    var p, v := KeyPattern(ms[0].key), ValueText(ms[0].value);
    MembersHeadShape(ms);
    KeyPatternChars(w);
    if k < |p| {
      KeyInOwnName(s, ms[0].key, w, k);
    } else if k == |p| + |v| {
      Mismatch(s, KeyPattern(w), k, 0);
    } else {
      KeyInValue(s, |p|, ms[0].value, w, k);
    }
  }

  /** A key pattern occurs in a printed object exactly at the members with that key. */
  lemma {:induction false} KeyOccursOnlyAtMembers(ms: seq<Member>, w: string, k: nat)
    requires forall i :: 0 <= i < |ms| ==> Safe(ms[i])
    requires IsWord(w) && OccursAt(Members(ms), KeyPattern(w), k)
    ensures exists i :: 0 <= i < |ms| && ms[i].key == w && k == Offset(ms, i)
    decreases |ms|
  {
    hide Members, Offset, Head, KeyPattern, OccursAt, Safe, IsWord;
    NothingOccurs(w, k);
    if ms == [] {
    } else {
      var h := Head(ms[0], |ms| == 1);
      UnfoldMembers(ms, 0);
      if k < |h| {
        if !(k == 0 && ms[0].key == w) {
          KeyInHead(ms, w, k);
        }
      } else {
        OccursAtTail(h, Members(ms[1..]), KeyPattern(w), k);
        KeyOccursOnlyAtMembers(ms[1..], w, k - |h|);
        var i :| 0 <= i < |ms[1..]| && ms[1..][i].key == w && k - |h| == Offset(ms[1..], i);
        UnfoldMembers(ms, i + 1);
        assert ms[i + 1].key == w && k == Offset(ms, i + 1);
      }
    }
  }

  lemma NothingOccurs(w: string, k: nat)
    ensures !OccursAt(Members([]), KeyPattern(w), k)
  {
  }

  lemma UnfoldMembers(ms: seq<Member>, i: nat)
    requires i < |ms|
    ensures i == 0 ==> Offset(ms, i) == 0
    ensures i > 0 ==> Offset(ms, i) == |Head(ms[0], |ms| == 1)| + Offset(ms[1..], i - 1)
    ensures Members(ms) == Head(ms[0], |ms| == 1) + Members(ms[1..])
  {
  }

  lemma {:induction false} MemberText(ms: seq<Member>, i: nat)
    requires i < |ms|
    ensures Offset(ms, i) <= |Members(ms)|
    ensures Members(ms)[Offset(ms, i)..] == Members(ms[i..])
    decreases i
  {
    hide Members, Offset, Head;
    UnfoldMembers(ms, i);
    if i == 0 {
      assert ms[0..] == ms;
    } else {
      MemberText(ms[1..], i - 1);
      assert ms[1..][i - 1..] == ms[i..];
      DropConcat(Head(ms[0], |ms| == 1), Members(ms[1..]), Offset(ms[1..], i - 1));
    }
  }

  lemma DropConcat(h: string, t: string, o: nat)
    requires o <= |t|
    ensures (h + t)[|h| + o..] == t[o..]
  {
  }

  // ---- printing --------------------------------------------------------------------------

  function Fields(m: Message): seq<Member> {
    match m
    case Offer(sdp) => [Member("type", Text("offer")), Member("sdp", Text(Escape(sdp, true)))]
    case Answer(sdp) => [Member("type", Text("answer")), Member("sdp", Text(Escape(sdp, true)))]
    case Ice(mid, mline, candidate) =>
      [Member("type", Text("ice")), Member("mid", Text(mid)), Member("mlineIndex", Number(mline)),
       Member("candidate", Text(Escape(candidate, false)))]
  }

  function Line(m: Message): string {
    "{" + Members(Fields(m))
  }

  function KindPrefix(kind: string): string {
    "{" + KeyPattern("type") + "\"" + kind + "\","
  }

  lemma OfferLiteral()
    ensures "{\"type\":\"offer\",\"sdp\":\"" == KindPrefix("offer") + TextPattern("sdp")
  {
  }

  lemma AnswerLiteral()
    ensures "{\"type\":\"answer\",\"sdp\":\"" == KindPrefix("answer") + TextPattern("sdp")
  {
  }

  lemma IceLiterals()
    ensures "{\"type\":\"ice\",\"mid\":\"" == KindPrefix("ice") + TextPattern("mid")
    ensures "\",\"mlineIndex\":" == "\"," + KeyPattern("mlineIndex")
    ensures ",\"candidate\":\"" == "," + TextPattern("candidate")
  {
  }

  lemma MemberThen(m: Member, rest: seq<Member>)
    ensures Members([m] + rest) == KeyPattern(m.key) + ValueText(m.value)
                                   + (if rest == [] then "" else ",") + Members(rest)
  {
    assert ([m] + rest)[1..] == rest;
  }

  lemma TextThen(key: string, body: string, rest: seq<Member>)
    ensures Members([Member(key, Text(body))] + rest)
            == TextPattern(key) + (body + ((if rest == [] then "\"" else "\",") + Members(rest)))
  {
    hide Members;
    var k, q, m := KeyPattern(key), "\"", Members(rest);
    var sep := if rest == [] then "" else ",";
    MemberThen(Member(key, Text(body)), rest);
    assert ValueText(Text(body)) == q + body + q;
    assert q + sep == if rest == [] then "\"" else "\",";
    Regroup(k, q, body, q, sep, m);
  }

  lemma Regroup(k: string, q: string, body: string, r: string, sep: string, m: string)
    ensures k + (q + body + r) + sep + m == (k + q) + (body + ((r + sep) + m))
  {
    Assoc(k + (q + body + r), sep, m);
    Assoc(q, body, r);
    Assoc(k, q, body + r);
    Assoc(k + q, body + r, sep + m);
    Assoc(body, r, sep + m);
    Assoc(r, sep, m);
  }

  lemma NumberThen(key: string, n: int, rest: seq<Member>)
    requires rest != []
    ensures Members([Member(key, Number(n))] + rest) == KeyPattern(key) + (Decimal(n) + ("," + Members(rest)))
  {
    hide Members, Decimal;
    MemberThen(Member(key, Number(n)), rest);
    Assoc(KeyPattern(key) + Decimal(n), ",", Members(rest));
    Assoc(KeyPattern(key), Decimal(n), "," + Members(rest));
  }

  lemma SdpLine(kind: string, field: string)
    ensures KindPrefix(kind) + TextPattern("sdp") + field + "\"}"
            == "{" + Members([Member("type", Text(kind)), Member("sdp", Text(field))])
  {
    var b := Member("sdp", Text(field));
    var t := TextPattern("sdp") + (field + "\"}");
    assert Members([b]) == t by {
      assert [b] == [b] + [] && Members([]) == "}";
      TextThen("sdp", field, []);
      assert "\"" + "}" == "\"}";
    }
    hide Members;
    assert [Member("type", Text(kind)), b] == [Member("type", Text(kind))] + [b];
    TextThen("type", kind, [b]);
    KindThen(kind, t);
    Assoc(KindPrefix(kind), TextPattern("sdp"), field);
    Assoc(KindPrefix(kind), TextPattern("sdp") + field, "\"}");
    Assoc(TextPattern("sdp"), field, "\"}");
  }

  lemma KindThen(kind: string, t: string)
    ensures "{" + (TextPattern("type") + (kind + ("\"," + t))) == KindPrefix(kind) + t
  {
    var q := TextPattern("type");
    assert KindPrefix(kind) == "{" + q + kind + "\"," by {
      Assoc("{", KeyPattern("type"), "\"");
    }
    hide KindPrefix, TextPattern;
    Assoc("{", q, kind + ("\"," + t));
    Assoc("{" + q, kind, "\"," + t);
    Assoc("{" + q + kind, "\",", t);
  }

  lemma IceLine(mid: string, mline: int, field: string)
    ensures KindPrefix("ice") + TextPattern("mid") + mid + ("\"," + KeyPattern("mlineIndex")) + Decimal(mline)
            + ("," + TextPattern("candidate")) + field + "\"}"
            == "{" + Members([Member("type", Text("ice")), Member("mid", Text(mid)),
                              Member("mlineIndex", Number(mline)), Member("candidate", Text(field))])
  {
    var a, b := Member("type", Text("ice")), Member("mid", Text(mid));
    var c, d := Member("mlineIndex", Number(mline)), Member("candidate", Text(field));
    assert Members([d]) == TextPattern("candidate") + (field + "\"}") by {
      assert [d] == [d] + [] && Members([]) == "}";
      TextThen("candidate", field, []);
      assert "\"" + "}" == "\"}";
    }
    hide Members, Decimal;
    assert [c, d] == [c] + [d] && [b, c, d] == [b] + [c, d] && [a, b, c, d] == [a] + [b, c, d];
    NumberThen("mlineIndex", mline, [d]);
    TextThen("mid", mid, [c, d]);
    TextThen("type", "ice", [b, c, d]);
    KindThen("ice", Members([b, c, d]));
    hide KindPrefix, TextPattern, KeyPattern;
    IceRegroup(KindPrefix("ice"), TextPattern("mid"), mid, KeyPattern("mlineIndex"), Decimal(mline),
               TextPattern("candidate"), field);
  }

  lemma IceRegroup(k: string, m: string, mid: string, x: string, n: string, c: string, f: string)
    ensures k + m + mid + ("\"," + x) + n + ("," + c) + f + "\"}"
            == k + (m + (mid + ("\"," + (x + (n + ("," + (c + (f + "\"}"))))))))
  {
    Assoc(k + m + mid + ("\"," + x) + n + ("," + c), f, "\"}");
    Assoc(k + m + mid + ("\"," + x) + n, "," + c, f + "\"}");
    Assoc(",", c, f + "\"}");
    var t1 := "," + (c + (f + "\"}"));
    Assoc(k + m + mid + ("\"," + x), n, t1);
    Assoc(k + m + mid, "\"," + x, n + t1);
    Assoc("\",", x, n + t1);
    var t2 := "\"," + (x + (n + t1));
    Assoc(k + m, mid, t2);
    Assoc(k, m, mid + t2);
  }

  method SendOffer(sdp: string) returns (line: string)
    ensures line == Line(Offer(sdp))
  {
    line := "{\"type\":\"offer\",\"sdp\":\"";
    OfferLiteral();
    var field := EscapeField(sdp, true);
    line := line + field + "\"}";
    SdpLine("offer", field);
  }

  method SendAnswer(sdp: string) returns (line: string)
    ensures line == Line(Answer(sdp))
  {
    line := "{\"type\":\"answer\",\"sdp\":\"";
    AnswerLiteral();
    var field := EscapeField(sdp, true);
    line := line + field + "\"}";
    SdpLine("answer", field);
  }

  method SendIceCandidate(mid: string, mline: int, candidate: string) returns (line: string)
    ensures line == Line(Ice(mid, mline, candidate))
  {
    line := "{\"type\":\"ice\",\"mid\":\"" + mid + "\",\"mlineIndex\":" + Decimal(mline) + ",\"candidate\":\"";
    IceLiterals();
    var field := EscapeField(candidate, false);
    line := line + field + "\"}";
    IceLine(mid, mline, field);
  }

  // ---- parsing -----------------------------------------------------------------------------

  function KindPattern(key: string, kind: string): string { KeyPattern(key) + "\"" + kind + "\"" }
  function SpacedKindPattern(key: string, kind: string): string { KeyPattern(key) + " \"" + kind + "\"" }

  function TypePattern(kind: string): string { KindPattern("type", kind) }
  function SpacedTypePattern(kind: string): string { SpacedKindPattern("type", kind) }
  function TextPattern(key: string): string { KeyPattern(key) + "\"" }

  predicate IsKind(line: string, kind: string) {
    Has(line, TypePattern(kind)) || Has(line, SpacedTypePattern(kind))
  }

  function ReadAt(line: string, pattern: string, crlf: bool): Option<string> {
    match Find(line, pattern)
    case None => None
    case Some(p) => Some(ReadField(line[p + |pattern|..], crlf))
  }

  function ReadRawAt(line: string, pattern: string): string {
    match Find(line, pattern)
    case None => ""
    case Some(p) =>
      match FindFrom(line, "\"", p + |pattern|)
      case None => ""
      case Some(end) => line[p + |pattern|..end]
  }

  function ReadIntAt(line: string, pattern: string): int {
    match Find(line, pattern)
    case None => 0
    case Some(p) => Atoi(line[p + |pattern|..])
  }

  function ParseMid(line: string): string { ReadRawAt(line, TextPattern("mid")) }
  function ParseMline(line: string): int { ReadIntAt(line, KeyPattern("mlineIndex")) }

  function ParseCandidate(line: string): string {
    match ReadAt(line, TextPattern("candidate"), false)
    case None => ""
    case Some(c) => c
  }

  function Parse(line: string): Option<Message> {
    if line == "" || Has(line, TypePattern("register")) then None
    else if IsKind(line, "answer") then
      match ReadAt(line, TextPattern("sdp"), true) { case None => None case Some(sdp) => Some(Answer(sdp)) }
    else if IsKind(line, "offer") then
      match ReadAt(line, TextPattern("sdp"), true) { case None => None case Some(sdp) => Some(Offer(sdp)) }
    else if IsKind(line, "ice") then
      if ParseCandidate(line) == "" then None
      else Some(Ice(ParseMid(line), ParseMline(line), ParseCandidate(line)))
    else None
  }

  lemma KindLiteral(kind: string)
    ensures "\"type\":\"" + kind + "\"" == TypePattern(kind)
    ensures "\"type\": \"" + kind + "\"" == SpacedTypePattern(kind)
  {
    assert "\"type\":\"" == KeyPattern("type") + "\"";
    assert "\"type\": \"" == KeyPattern("type") + " \"";
  }

  lemma RegisterLiteral()
    ensures "\"type\":\"register\"" == TypePattern("register")
  {
    KindLiteral("register");
  }

  lemma AnswerLiterals()
    ensures "\"type\":\"answer\"" == TypePattern("answer") && "\"type\": \"answer\"" == SpacedTypePattern("answer")
  {
    KindLiteral("answer");
  }

  lemma OfferLiterals()
    ensures "\"type\":\"offer\"" == TypePattern("offer") && "\"type\": \"offer\"" == SpacedTypePattern("offer")
  {
    KindLiteral("offer");
  }

  lemma IceTypeLiterals()
    ensures "\"type\":\"ice\"" == TypePattern("ice") && "\"type\": \"ice\"" == SpacedTypePattern("ice")
  {
    KindLiteral("ice");
  }

  lemma FieldLiterals()
    ensures "\"sdp\":\"" == TextPattern("sdp")
    ensures "\"mid\":\"" == TextPattern("mid")
    ensures "\"mlineIndex\":" == KeyPattern("mlineIndex")
    ensures "\"candidate\":\"" == TextPattern("candidate")
  {
  }

  method ParseSdp(line: string) returns (sdp: Option<string>)
    ensures sdp == ReadAt(line, TextPattern("sdp"), true)
  {
    FieldLiterals();
    sdp := None;
    var p := Find(line, "\"sdp\":\"");
    if p.Some? {
      var field := UnescapeField(line, p.value + 7, true);
      sdp := Some(field);
    }
  }

  method ParseIce(line: string) returns (mid: string, mline: int, candidate: string)
    ensures mid == ParseMid(line) && mline == ParseMline(line) && candidate == ParseCandidate(line)
  {
    FieldLiterals();
    hide ReadField, Atoi;
    mid, mline, candidate := "", 0, "";
    var p := Find(line, "\"mid\":\"");
    if p.Some? {
      var end := FindFrom(line, "\"", p.value + 7);
      if end.Some? {
        mid := line[p.value + 7..end.value];
      }
    }
    p := Find(line, "\"mlineIndex\":");
    if p.Some? {
      mline := Atoi(line[p.value + 13..]);
    }
    p := Find(line, "\"candidate\":\"");
    if p.Some? {
      candidate := UnescapeField(line, p.value + 13, false);
    }
  }

  method ParseAndDispatch(line: string) returns (m: Option<Message>)
    ensures m == Parse(line)
  {
    hide TypePattern, SpacedTypePattern, Has, ReadAt, ParseMid, ParseMline, ParseCandidate;
    RegisterLiteral();
    AnswerLiterals();
    OfferLiterals();
    IceTypeLiterals();
    m := None;
    if line == "" { return; }
    if Has(line, "\"type\":\"register\"") { return; }
    if Has(line, "\"type\":\"answer\"") || Has(line, "\"type\": \"answer\"") {
      var sdp := ParseSdp(line);
      if sdp.Some? { m := Some(Answer(sdp.value)); }
      return;
    }
    if Has(line, "\"type\":\"offer\"") || Has(line, "\"type\": \"offer\"") {
      var sdp := ParseSdp(line);
      if sdp.Some? { m := Some(Offer(sdp.value)); }
      return;
    }
    if Has(line, "\"type\":\"ice\"") || Has(line, "\"type\": \"ice\"") {
      var mid, mline, candidate := ParseIce(line);
      if candidate != "" {
        m := Some(Ice(mid, mline, candidate));
      }
    }
  }

  // ---- a printed line parses to the message it was printed from --------------------------------

  ghost predicate AllSafe(ms: seq<Member>) {
    forall i :: 0 <= i < |ms| ==> Safe(ms[i])
  }

  lemma SuffixParts(text: string, at: nat, p: string, rest: string)
    requires at <= |text| && text[at..] == p + rest
    ensures OccursAt("{" + text, p, 1 + at)
    ensures ("{" + text)[1 + at + |p|..] == rest
  {
    var line := "{" + text;
    assert line[1 + at..] == text[at..];
    assert line[1 + at..1 + at + |p|] == line[1 + at..][..|p|];
    assert line[1 + at + |p|..] == line[1 + at..][|p|..];
  }

  function Behind(ms: seq<Member>, i: nat): string
    requires i < |ms|
  {
    (if i + 1 == |ms| then "" else ",") + Members(ms[i + 1..])
  }

  lemma MemberSplit(ms: seq<Member>, i: nat)
    requires i < |ms|
    ensures Members(ms[i..]) == KeyPattern(ms[i].key) + (ValueText(ms[i].value) + Behind(ms, i))
  {
    var t := ms[i..];
    var p, v := KeyPattern(ms[i].key), ValueText(ms[i].value);
    var sep, rest := if |t| == 1 then "" else ",", Members(t[1..]);
    assert t[1..] == ms[i + 1..];
    assert Members(t) == (p + v + sep) + rest;
    assert (p + v + sep) + rest == p + (v + (sep + rest));
  }

  /** What the line holds behind the key of member `i`. */
  lemma ValueAt(ms: seq<Member>, i: nat)
    requires i < |ms|
    ensures var line, at := "{" + Members(ms), 1 + Offset(ms, i) + |KeyPattern(ms[i].key)|;
            && at <= |line|
            && OccursAt(line, KeyPattern(ms[i].key), 1 + Offset(ms, i))
            && line[at..] == ValueText(ms[i].value) + Behind(ms, i)
  {
    var p, v := KeyPattern(ms[i].key), ValueText(ms[i].value);
    MemberText(ms, i);
    MemberSplit(ms, i);
    SuffixParts(Members(ms), Offset(ms, i), p, v + Behind(ms, i));
  }

  /** Any search pattern that starts with a key is found only behind that member's own key. */
  lemma PatternOnlyAt(ms: seq<Member>, i: nat, w: string, p: string, k: nat)
    requires AllSafe(ms) && IsWord(w) && i < |ms|
    requires forall j :: 0 <= j < |ms| && ms[j].key == w ==> j == i
    requires |KeyPattern(w)| <= |p| && p[..|KeyPattern(w)|] == KeyPattern(w)
    requires OccursAt("{" + Members(ms), p, k)
    ensures ms[i].key == w && k == 1 + Offset(ms, i)
  {
    hide Members, Offset, KeyPattern, Safe, OccursAt, IsWord;
    KeyPatternStarts(w);
    var line, q := "{" + Members(ms), KeyPattern(w);
    OccursAtPrefix(line, p, q, k);
    NotAtBrace(Members(ms), q);
    if k > 0 {
      OccursAtTail("{", Members(ms), q, k);
      KeyOccursOnlyAtMembers(ms, w, k - 1);
      var j :| 0 <= j < |ms| && ms[j].key == w && k - 1 == Offset(ms, j);
      assert j == i;
    }
  }

  lemma KeyPatternStarts(w: string)
    ensures KeyPattern(w) != "" && KeyPattern(w)[0] == '"'
  {
  }

  lemma NotAtBrace(text: string, q: string)
    requires q != "" && q[0] == '"'
    ensures !OccursAt("{" + text, q, 0)
  {
    Mismatch("{" + text, q, 0, 0);
  }

  lemma OccursAtPrefix(s: string, p: string, q: string, k: nat)
    requires OccursAt(s, p, k) && |q| <= |p| && p[..|q|] == q
    ensures OccursAt(s, q, k)
  {
    assert s[k..k + |q|] == s[k..k + |p|][..|q|];
  }

  function Kind(m: Message): string {
    match m
    case Offer(_) => "offer"
    case Answer(_) => "answer"
    case Ice(_, _, _) => "ice"
  }

  predicate MidIsQuoteFree(m: Message) {
    m.Ice? ==> '"' !in m.mid
  }

  lemma FieldsAreSafe(m: Message)
    requires MidIsQuoteFree(m)
    ensures AllSafe(Fields(m))
    ensures forall i, j :: 0 <= i < |Fields(m)| && 0 <= j < |Fields(m)| && Fields(m)[i].key == Fields(m)[j].key ==>
                             i == j
    ensures Fields(m)[0] == Member("type", Text(Kind(m)))
  {
    match m {
      case Offer(sdp) => EscapeQuotes(sdp, true); DistinctKeys();
      case Answer(sdp) => EscapeQuotes(sdp, true); DistinctKeys();
      case Ice(mid, mline, candidate) => EscapeQuotes(candidate, false); DistinctKeys();
    }
  }

  lemma DistinctKeys()
    ensures IsWord("type") && IsWord("sdp") && IsWord("mid") && IsWord("mlineIndex") && IsWord("candidate")
    ensures IsWord("offer") && IsWord("answer") && IsWord("ice")
    ensures "type" != "sdp" && "type" != "mid" && "type" != "mlineIndex" && "type" != "candidate"
    ensures "mid" != "mlineIndex" && "mid" != "candidate" && "mlineIndex" != "candidate"
  {
    assert "type"[0] != "sdp"[0];
    assert |"type"| != |"mid"| && |"type"| != |"mlineIndex"| && |"type"| != |"candidate"|;
    assert |"mid"| != |"mlineIndex"| && |"mid"| != |"candidate"| && |"mlineIndex"| != |"candidate"|;
  }

  lemma KindAtOne(line: string, q: string, own: string, kind: string, rest: string)
    requires own != "" && kind != "" && (kind == own || kind[0] != own[0])
    requires OccursAt(line, q, 1) && line[1 + |q|..] == "\"" + own + "\"" + rest
    ensures OccursAt(line, q + "\"" + kind + "\"", 1) <==> kind == own
    ensures !OccursAt(line, q + " \"" + kind + "\"", 1)
  {
    var at := 1 + |q|;
    var v := "\"" + own + "\"";
    var tail := line[at..];
    assert tail == v + rest;
    assert line[at] == tail[0] == '"' && line[at + 1] == tail[1] == own[0];
    var tp, sp := q + "\"" + kind + "\"", q + " \"" + kind + "\"";
    assert sp[|q|] == ' ' && tp[|q| + 1] == kind[0];
    Mismatch(line, sp, 1, |q|);
    if kind == own {
      assert tp == q + v;
      assert line[at..at + |v|] == tail[..|v|] == v;
      assert line[1..1 + |tp|] == line[1..at] + line[at..at + |v|];
    } else {
      Mismatch(line, tp, 1, |q| + 1);
    }
  }

  lemma FirstLetters(a: string, b: string)
    requires a in {"register", "answer", "offer", "ice"} && b in {"register", "answer", "offer", "ice"}
    ensures a != "" && b != "" && (a == b || a[0] != b[0])
  {
  }

  lemma KindPatternShape(key: string, kind: string)
    ensures var q := KeyPattern(key);
            && KindPattern(key, kind) == q + "\"" + kind + "\""
            && SpacedKindPattern(key, kind) == q + " \"" + kind + "\""
            && |q| <= |KindPattern(key, kind)| && KindPattern(key, kind)[..|q|] == q
            && |q| <= |SpacedKindPattern(key, kind)| && SpacedKindPattern(key, kind)[..|q|] == q
  {
  }

  lemma HasAtMost(line: string, p: string, at: nat)
    requires forall k: nat :: OccursAt(line, p, k) ==> k == at
    ensures Has(line, p) <==> OccursAt(line, p, at)
  {
  }

  lemma TypeFound(ms: seq<Member>, own: string, kind: string)
    requires OnlyKey(ms, 0) && ms[0].value == Text(own)
    requires own != "" && kind != "" && (kind == own || kind[0] != own[0])
    ensures Has("{" + Members(ms), KindPattern(ms[0].key, kind)) <==> kind == own
    ensures !Has("{" + Members(ms), SpacedKindPattern(ms[0].key, kind))
  {
    hide Members, Offset, Behind, KindPattern, SpacedKindPattern, KeyPattern, Has, OccursAt;
    var key := ms[0].key;
    var line, tp, sp := "{" + Members(ms), KindPattern(key, kind), SpacedKindPattern(key, kind);
    ValueAt(ms, 0);
    UnfoldMembers(ms, 0);
    KindPatternShape(key, kind);
    KindAtOne(line, KeyPattern(key), own, kind, Behind(ms, 0));
    OnlyAtFirst(ms, tp);
    OnlyAtFirst(ms, sp);
    HasAtMost(line, tp, 1);
    HasAtMost(line, sp, 1);
  }

  lemma OnlyAtFirst(ms: seq<Member>, p: string)
    requires OnlyKey(ms, 0)
    requires |KeyPattern(ms[0].key)| <= |p| && p[..|KeyPattern(ms[0].key)|] == KeyPattern(ms[0].key)
    ensures forall k: nat :: OccursAt("{" + Members(ms), p, k) ==> k == 1
  {
    assert Offset(ms, 0) == 0;
    hide Members, Offset;
    forall k: nat | OccursAt("{" + Members(ms), p, k) ensures k == 1 {
      PatternOnlyAt(ms, 0, ms[0].key, p, k);
    }
  }

  /** The text a type search is aimed at is the printer's own header, whatever the fields hold. */
  lemma KindIsOwn(m: Message, kind: string)
    requires MidIsQuoteFree(m)
    requires kind in {"register", "answer", "offer", "ice"}
    ensures Has(Line(m), TypePattern(kind)) <==> kind == Kind(m)
    ensures !Has(Line(m), SpacedTypePattern(kind))
  {
    FieldsAreSafe(m);
    FirstLetters(kind, Kind(m));
    hide Fields, Has, KindPattern, SpacedKindPattern, Members;
    TypeFound(Fields(m), Kind(m), kind);
  }

  ghost predicate OnlyKey(ms: seq<Member>, i: nat) {
    && i < |ms| && AllSafe(ms)
    && (forall j :: 0 <= j < |ms| && ms[j].key == ms[i].key ==> j == i)
  }

  lemma QuoteAfter(line: string, q: string, at: nat, rest: string)
    requires OccursAt(line, q, at) && line[at + |q|..] == "\"" + rest
    ensures OccursAt(line, q + "\"", at)
    ensures line[at + |q + "\""|..] == rest
  {
    var e := at + |q|;
    assert line[e..][0] == '"' && line[e..][1..] == rest;
    assert line[at..e + 1] == line[at..e] + [line[e]];
    assert line[e + 1..] == line[e..][1..];
  }

  /** The text behind a text member's opening quote: its body, the closing quote, and more. */
  lemma BodyAt(ms: seq<Member>, i: nat)
    requires i < |ms| && ms[i].value.Text?
    ensures var line, at := "{" + Members(ms), 1 + Offset(ms, i);
            && OccursAt(line, TextPattern(ms[i].key), at)
            && line[at + |TextPattern(ms[i].key)|..] == ms[i].value.body + "\"" + Behind(ms, i)
  {
    hide Members, Offset, Behind;
    var body, rest := ms[i].value.body, Behind(ms, i);
    ValueAt(ms, i);
    assert ("\"" + body + "\"") + rest == "\"" + (body + "\"" + rest);
    QuoteAfter("{" + Members(ms), KeyPattern(ms[i].key), 1 + Offset(ms, i), body + "\"" + rest);
  }

  lemma KeyBeginsPattern(w: string, p: string)
    requires p == KeyPattern(w) || p == TextPattern(w)
    ensures |KeyPattern(w)| <= |p| && p[..|KeyPattern(w)|] == KeyPattern(w)
  {
  }

  lemma FindsKey(ms: seq<Member>, i: nat, p: string)
    requires OnlyKey(ms, i) && OccursAt("{" + Members(ms), p, 1 + Offset(ms, i))
    requires p == KeyPattern(ms[i].key) || p == TextPattern(ms[i].key)
    ensures Find("{" + Members(ms), p) == Some(1 + Offset(ms, i))
  {
    hide Members, Offset, Find, OccursAt, KeyPattern, TextPattern;
    var line := "{" + Members(ms);
    KeyBeginsPattern(ms[i].key, p);
    forall k: nat | OccursAt(line, p, k) ensures k == 1 + Offset(ms, i) {
      PatternOnlyAt(ms, i, ms[i].key, p, k);
    }
    FindIs(line, p, 1 + Offset(ms, i));
  }

  lemma ReadsText(ms: seq<Member>, i: nat, text: string, crlf: bool)
    requires OnlyKey(ms, i) && ms[i].value == Text(Escape(text, crlf))
    ensures ReadAt("{" + Members(ms), TextPattern(ms[i].key), crlf) == Some(text)
  {
    hide Members, Offset, Behind, ReadField, Escape, FindFrom;
    BodyAt(ms, i);
    FindsKey(ms, i, TextPattern(ms[i].key));
    ReadFieldOfEscape(text, crlf, Behind(ms, i));
  }

  lemma FindQuote(line: string, start: nat, text: string, rest: string)
    requires start <= |line| && line[start..] == text + "\"" + rest && '"' !in text
    ensures FindFrom(line, "\"", start) == Some(start + |text|)
  {
    var q, end := "\"", start + |text|;
    var tail := line[start..];
    assert line[end..end + 1] == tail[|text|..|text| + 1] == q;
    assert OccursAt(line, q, end);
    forall k: nat | start <= k < end ensures !OccursAt(line, q, k) {
      assert line[k] == tail[k - start] == text[k - start];
      Mismatch(line, q, k, 0);
    }
  }

  lemma ReadsRaw(ms: seq<Member>, i: nat, text: string)
    requires OnlyKey(ms, i) && ms[i].value == Text(text) && '"' !in text
    ensures ReadRawAt("{" + Members(ms), TextPattern(ms[i].key)) == text
  {
    hide Members, Offset, Behind, FindFrom;
    var line := "{" + Members(ms);
    BodyAt(ms, i);
    FindsKey(ms, i, TextPattern(ms[i].key));
    var at := 1 + Offset(ms, i) + |TextPattern(ms[i].key)|;
    FindQuote(line, at, text, Behind(ms, i));
    TakeDrop(line, at, at + |text|);
    assert line[at..][..|text|] == text;
  }

  lemma CommaBehind(ms: seq<Member>, i: nat)
    requires i + 1 < |ms|
    ensures Behind(ms, i) != "" && Behind(ms, i)[0] == ','
  {
  }

  lemma ReadsInt(ms: seq<Member>, i: nat, n: int)
    requires OnlyKey(ms, i) && i + 1 < |ms| && ms[i].value == Number(n)
    ensures ReadIntAt("{" + Members(ms), KeyPattern(ms[i].key)) == n
  {
    hide Members, Offset, Behind, Find, Decimal, KeyPattern, Atoi;
    CommaBehind(ms, i);
    ValueAt(ms, i);
    FindsKey(ms, i, KeyPattern(ms[i].key));
    AtoiOfDecimal(n, Behind(ms, i));
  }

  lemma FieldsParse(m: Message)
    requires MidIsQuoteFree(m)
    ensures !m.Ice? ==> ReadAt(Line(m), TextPattern("sdp"), true) == Some(m.sdp)
    ensures m.Ice? ==> && ParseMid(Line(m)) == m.mid && ParseMline(Line(m)) == m.mline
                       && ParseCandidate(Line(m)) == m.candidate
  {
    var ms := Fields(m);
    FieldsAreSafe(m);
    if m.Ice? {
      ReadsRaw(ms, 1, m.mid);
      ReadsInt(ms, 2, m.mline);
      ReadsText(ms, 3, m.candidate, false);
    } else {
      ReadsText(ms, 1, m.sdp, true);
    }
  }

  lemma ParseOfLine(m: Message)
    requires MidIsQuoteFree(m) && (m.Ice? ==> m.candidate != "")
    ensures Parse(Line(m)) == Some(m)
  {
    KindIsOwn(m, "register");
    KindIsOwn(m, "answer");
    KindIsOwn(m, "offer");
    KindIsOwn(m, "ice");
    FirstLetters("answer", "offer");
    FirstLetters("answer", "ice");
    FirstLetters("offer", "ice");
    FirstLetters("register", Kind(m));
    FieldsParse(m);
  }

  lemma RawHasNoQuote(line: string, pattern: string)
    ensures '"' !in ReadRawAt(line, pattern)
  {
    var p := Find(line, pattern);
    if p.Some? {
      var start := p.value + |pattern|;
      var end := FindFrom(line, "\"", start);
      if end.Some? {
        forall k: nat | start <= k < end.value ensures line[k] != '"' {
          assert !OccursAt(line, "\"", k);
          assert line[k..k + 1] == [line[k]];
        }
      }
    }
  }

  lemma ParsedIceShape(line: string)
    requires Parse(line).Some? && Parse(line).value.Ice?
    ensures Parse(line).value.candidate != "" && '"' !in Parse(line).value.mid
  {
    RawHasNoQuote(line, TextPattern("mid"));
    hide ReadRawAt, TextPattern, ParseMline, ParseCandidate, IsKind, ReadAt, Has;
  }

  /** A line gives its message back exactly when a candidate is present and the mid has no quote. */
  lemma LineRoundTripIff(m: Message)
    ensures Parse(Line(m)) == Some(m) <==> (m.Ice? ==> m.candidate != "" && '"' !in m.mid)
  {
    if m.Ice? ==> m.candidate != "" && '"' !in m.mid {
      ParseOfLine(m);
    } else if Parse(Line(m)) == Some(m) {
      ParsedIceShape(Line(m));
    }
  }

  // ---- newline framing over arbitrary chunks -----------------------------------------------------

  function IndexOf(s: string, c: char): (k: nat)
    ensures k <= |s| && (k < |s| ==> s[k] == c)
    ensures forall j :: 0 <= j < k ==> s[j] != c
  {
    if s == "" || s[0] == c then 0 else 1 + IndexOf(s[1..], c)
  }

  /** What `buf += tmp` appends: the bytes in front of the first NUL. */
  function CString(chunk: string): string {
    chunk[..IndexOf(chunk, '\0')]
  }

  function Lines(s: string): seq<string> {
    var k := IndexOf(s, '\n');
    if k == |s| then [] else [s[..k]] + Lines(s[k + 1..])
  }

  function Remainder(s: string): string {
    var k := IndexOf(s, '\n');
    if k == |s| then s else Remainder(s[k + 1..])
  }

  function Verdict(parse: string -> Option<Message>, line: string): seq<Message> {
    match parse(line)
    case None => []
    case Some(m) => [m]
  }

  function Dispatch(parse: string -> Option<Message>, lines: seq<string>): seq<Message> {
    if lines == [] then [] else Verdict(parse, lines[0]) + Dispatch(parse, lines[1..])
  }

  lemma DispatchCons(parse: string -> Option<Message>, line: string, lines: seq<string>)
    ensures Dispatch(parse, [line] + lines) == Verdict(parse, line) + Dispatch(parse, lines)
  {
    assert ([line] + lines)[1..] == lines;
  }

  lemma {:induction false} DispatchAppend(parse: string -> Option<Message>, a: seq<string>, b: seq<string>)
    ensures Dispatch(parse, a + b) == Dispatch(parse, a) + Dispatch(parse, b)
  {
    if a == [] {
      assert a + b == b;
    } else {
      DispatchAppend(parse, a[1..], b);
      DispatchCons(parse, a[0], a[1..]);
      DispatchCons(parse, a[0], a[1..] + b);
      hide Dispatch;
      assert a == [a[0]] + a[1..];
      Assoc([a[0]], a[1..], b);
      Assoc(Verdict(parse, a[0]), Dispatch(parse, a[1..]), Dispatch(parse, b));
    }
  }

  lemma DispatchOne(parse: string -> Option<Message>, a: seq<string>, line: string)
    ensures Dispatch(parse, a + [line]) == Dispatch(parse, a) + Verdict(parse, line)
  {
    DispatchAppend(parse, a, [line]);
    assert [line][1..] == [];
  }

  lemma IndexOfIs(s: string, c: char, k: nat)
    requires k <= |s| && (k < |s| ==> s[k] == c) && (forall j :: 0 <= j < k ==> s[j] != c)
    ensures IndexOf(s, c) == k
  {
  }

  lemma FirstLine(a: string, k: nat, b: string)
    requires k < |a| && a[k] == '\n' && (forall j :: 0 <= j < k ==> a[j] != '\n')
    ensures Lines(a + b) == [a[..k]] + Lines(a[k + 1..] + b)
    ensures Remainder(a + b) == Remainder(a[k + 1..] + b)
  {
    var s := a + b;
    assert forall j :: 0 <= j <= k ==> s[j] == a[j];
    IndexOfIs(s, '\n', k);
    assert s[..k] == a[..k];
    assert s[k + 1..] == a[k + 1..] + b;
  }

  /** Framing what is left over together with what comes next is framing the whole. */
  lemma {:induction false} FramingAppend(a: string, b: string)
    ensures Lines(a + b) == Lines(a) + Lines(Remainder(a) + b)
    ensures Remainder(a + b) == Remainder(Remainder(a) + b)
    decreases |a|
  {
    hide Lines, Remainder;
    var k := IndexOf(a, '\n');
    LinesStep(a, k);
    if k < |a| {
      var t := a[k + 1..];
      FramingAppend(t, b);
      FirstLine(a, k, b);
      Assoc([a[..k]], Lines(t), Lines(Remainder(t) + b));
    } else {
      assert [] + Lines(a + b) == Lines(a + b);
    }
  }

  lemma LinesStep(s: string, k: nat)
    requires k == IndexOf(s, '\n')
    ensures k == |s| ==> Lines(s) == [] && Remainder(s) == s
    ensures k < |s| ==> Lines(s) == [s[..k]] + Lines(s[k + 1..]) && Remainder(s) == Remainder(s[k + 1..])
  {
    hide IndexOf;
  }

  lemma FrameNothing(parse: string -> Option<Message>)
    ensures Lines("") == [] && Remainder("") == "" && Dispatch(parse, []) == []
  {
  }

  datatype Recv = Data(bytes: string) | WouldBlock | Closed | Failed

  /** The bytes received before the connection ends, as the reader sees them. */
  function Received(rs: seq<Recv>): string {
    if rs == [] || rs[0].Closed? || rs[0].Failed? then ""
    else (if rs[0].Data? then CString(rs[0].bytes) else "") + Received(rs[1..])
  }

  class Reader {
    var buf: string
    var dispatched: seq<Message>

    constructor ()
      ensures buf == "" && dispatched == []
    {
      buf, dispatched := "", [];
    }

    method OnData(bytes: string)
      modifies this
      ensures buf == Remainder(old(buf) + CString(bytes))
      ensures dispatched == old(dispatched) + Dispatch(Parse, Lines(old(buf) + CString(bytes)))
    {
      hide Parse, Lines, Remainder, Dispatch, CString;
      FrameNothing(Parse);
      buf := buf + CString(bytes);
      ghost var all := buf;
      ghost var lines: seq<string> := [];
      var pos := IndexOf(buf, '\n');
      while pos < |buf|
        invariant pos == IndexOf(buf, '\n')
        invariant lines + Lines(buf) == Lines(all) && Remainder(buf) == Remainder(all)
        invariant dispatched == old(dispatched) + Dispatch(Parse, lines)
        decreases |buf|
      {
        LinesStep(buf, pos);
        var line := buf[..pos];
        Assoc(lines, [line], Lines(buf[pos + 1..]));
        buf := buf[pos + 1..];
        var m := ParseAndDispatch(line);
        DispatchOne(Parse, lines, line);
        lines := lines + [line];
        Assoc(old(dispatched), Dispatch(Parse, lines[..|lines| - 1]), Verdict(Parse, line));
        assert lines[..|lines| - 1] + [line] == lines;
        if m.Some? {
          dispatched := dispatched + [m.value];
        }
        pos := IndexOf(buf, '\n');
      }
      LinesStep(buf, pos);
      assert lines + [] == lines;
    }

    /** The reader thread's loop, over the results recv gives it. */
    method ReaderLoop(rs: seq<Recv>)
      requires buf == ""
      modifies this
      ensures buf == Remainder(Received(rs))
      ensures dispatched == old(dispatched) + Dispatch(Parse, Lines(Received(rs)))
    {
      hide Parse, Lines, Remainder, Dispatch, CString;
      ghost var seen := "";
      var i := 0;
      FrameNothing(Parse);
      assert rs[0..] == rs;
      while i < |rs|
        invariant 0 <= i <= |rs|
        invariant seen + Received(rs[i..]) == Received(rs)
        invariant buf == Remainder(seen)
        invariant dispatched == old(dispatched) + Dispatch(Parse, Lines(seen))
      {
        assert rs[i..][1..] == rs[i + 1..];
        match rs[i] {
          case Data(bytes) =>
            FramingAppend(seen, CString(bytes));
            DispatchAppend(Parse, Lines(seen), Lines(buf + CString(bytes)));
            OnData(bytes);
            seen := seen + CString(bytes);
          case WouldBlock =>
          case Closed =>
            assert seen == Received(rs);
            return;
          case Failed =>
            assert seen == Received(rs);
            return;
        }
        i := i + 1;
      }
      assert seen == Received(rs);
    }
  }

  // ---- every message sent is dispatched, once and in order, however TCP cuts the bytes ------------

  predicate NulFree(s: string) { '\0' !in s }

  predicate Deliverable(m: Message) {
    match m
    case Offer(sdp) => NulFree(sdp)
    case Answer(sdp) => NulFree(sdp)
    case Ice(mid, _, candidate) =>
      && NulFree(mid) && '"' !in mid && '\n' !in mid
      && NulFree(candidate) && candidate != "" && '\n' !in candidate
  }

  function Wire(ms: seq<Message>): string {
    if ms == [] then "" else Line(ms[0]) + "\n" + Wire(ms[1..])
  }

  function Concat(chunks: seq<string>): string {
    if chunks == [] then "" else chunks[0] + Concat(chunks[1..])
  }

  lemma {:induction false} EscapeKeepsOut(s: string, crlf: bool, c: char)
    requires c == '\0' || c == '\n'
    requires c !in s || (c == '\n' && crlf)
    ensures c !in Escape(s, crlf)
  {
    if s == "" {
    } else {
      EscapeKeepsOut(s[1..], crlf, c);
      assert c !in EscapeChar(s[0], crlf);
    }
  }

  lemma DecimalKeepsOut(n: int, c: char)
    requires c == '\0' || c == '\n'
    ensures c !in Decimal(n)
  {
    ReadDigitsOfDigits(if n < 0 then -n else n, "");
  }

  lemma HeadKeepsOut(m: Member, last: bool, c: char)
    requires c == '\0' || c == '\n'
    requires IsWord(m.key) && (m.value.Text? ==> c !in m.value.body)
    ensures c !in Head(m, last)
  {
    hide Decimal;
    assert c !in KeyPattern(m.key);
    if m.value.Number? {
      DecimalKeepsOut(m.value.n, c);
    }
    assert c !in ValueText(m.value);
  }

  lemma {:induction false} MembersKeepOut(ms: seq<Member>, c: char)
    requires c == '\0' || c == '\n'
    requires forall i :: 0 <= i < |ms| ==> IsWord(ms[i].key) && (ms[i].value.Text? ==> c !in ms[i].value.body)
    ensures c !in Members(ms)
  {
    if ms == [] {
    } else {
      MembersKeepOut(ms[1..], c);
      HeadKeepsOut(ms[0], |ms| == 1, c);
      hide Head;
    }
  }

  /** `c` cannot reach the wire: line breaks are escaped in session descriptions only. */
  predicate StaysOut(m: Message, c: char) {
    match m
    case Offer(sdp) => c == '\n' || c !in sdp
    case Answer(sdp) => c == '\n' || c !in sdp
    case Ice(mid, _, candidate) => c !in mid && c !in candidate
  }

  lemma LineKeepsOut(m: Message, c: char)
    requires StaysOut(m, c) && (c == '\0' || c == '\n')
    ensures c !in Line(m)
  {
    DistinctKeys();
    match m {
      case Offer(sdp) => EscapeKeepsOut(sdp, true, c);
      case Answer(sdp) => EscapeKeepsOut(sdp, true, c);
      case Ice(mid, mline, candidate) => EscapeKeepsOut(candidate, false, c);
    }
    MembersKeepOut(Fields(m), c);
  }

  lemma OneLineThen(line: string, rest: string)
    requires '\n' !in line
    ensures Lines(line + "\n" + rest) == [line] + Lines(rest)
    ensures Remainder(line + "\n" + rest) == Remainder(rest)
  {
    var a := line + "\n";
    assert a[..|line|] == line && a[|line| + 1..] == "" && "" + rest == rest;
    FirstLine(a, |line|, rest);
  }

  lemma {:induction false} WireFrames(ms: seq<Message>)
    requires forall i :: 0 <= i < |ms| ==> Deliverable(ms[i])
    ensures NulFree(Wire(ms))
    ensures Dispatch(Parse, Lines(Wire(ms))) == ms && Remainder(Wire(ms)) == ""
  {
    if ms == [] {
      FrameNothing(Parse);
    } else {
      WireFrames(ms[1..]);
      hide Line, Parse, Lines, Remainder, Dispatch;
      var line, rest := Line(ms[0]), Wire(ms[1..]);
      LineKeepsOut(ms[0], '\0');
      LineKeepsOut(ms[0], '\n');
      OneLineThen(line, rest);
      ParseOfLine(ms[0]);
      DispatchCons(Parse, line, Lines(rest));
      assert ms == [ms[0]] + ms[1..];
    }
  }

  predicate GoesOn(r: Recv) { r.Data? || r.WouldBlock? }

  /** The connection ends with the first result, or the results end. */
  predicate Ended(rs: seq<Recv>) { rs == [] || !GoesOn(rs[0]) }

  /** The chunks of the results, an empty one wherever recv would have blocked. */
  function Chunks(rs: seq<Recv>): seq<string> {
    seq(|rs|, i requires 0 <= i < |rs| => if rs[i].Data? then rs[i].bytes else "")
  }

  lemma NulFreeParts(a: string, b: string)
    requires NulFree(a + b)
    ensures NulFree(a) && NulFree(b)
  {
    assert forall c :: c in a ==> c in a + b;
    assert forall c :: c in b ==> c in a + b;
  }

  lemma NothingReceived(end: seq<Recv>)
    requires Ended(end)
    ensures Received(end) == "" == Concat(Chunks([]))
  {
  }

  lemma ChunksStep(rs: seq<Recv>)
    requires rs != []
    ensures Chunks(rs) != [] && Chunks(rs)[0] == if rs[0].Data? then rs[0].bytes else ""
    ensures Chunks(rs)[1..] == Chunks(rs[1..])
    ensures Concat(Chunks(rs)) == Chunks(rs)[0] + Concat(Chunks(rs)[1..])
  {
  }

  lemma ReceivedStep(r: Recv, rest: seq<Recv>)
    requires GoesOn(r) && (r.Data? ==> NulFree(r.bytes))
    ensures Received([r] + rest) == (if r.Data? then r.bytes else "") + Received(rest)
  {
    assert ([r] + rest)[1..] == rest;
    if r.Data? {
      IndexOfIs(r.bytes, '\0', |r.bytes|);
      assert CString(r.bytes) == r.bytes;
    }
  }

  lemma {:induction false} ReceivedIsConcat(rs: seq<Recv>, end: seq<Recv>)
    requires (forall i :: 0 <= i < |rs| ==> GoesOn(rs[i])) && Ended(end)
    requires NulFree(Concat(Chunks(rs)))
    ensures Received(rs + end) == Concat(Chunks(rs))
  {
    hide Received, NulFree, Chunks, Concat;
    if rs == [] {
      NothingReceived(end);
      assert rs + end == end;
    } else {
      var chunks := Chunks(rs);
      ChunksStep(rs);
      NulFreeParts(chunks[0], Concat(chunks[1..]));
      ReceivedIsConcat(rs[1..], end);
      ReceivedStep(rs[0], rs[1..] + end);
      assert rs + end == [rs[0]] + (rs[1..] + end);
    }
  }

  lemma {:induction false} ReadFieldKeepsOut(t: string, crlf: bool, c: char)
    requires c !in t && (c == '\0' || (c == '\n' && !crlf))
    ensures c !in ReadField(t, crlf)
    decreases |t|
  {
    if t == "" {
    } else if t[0] == '\\' && |t| > 1 {
      ReadFieldKeepsOut(t[2..], crlf, c);
    } else {
      ReadFieldKeepsOut(t[1..], crlf, c);
    }
  }

  lemma ReadAtKeepsOut(line: string, pattern: string, crlf: bool, c: char)
    requires c !in line && (c == '\0' || (c == '\n' && !crlf))
    ensures var r := ReadAt(line, pattern, crlf); r.Some? ==> c !in r.value
  {
    hide ReadField, FindFrom;
    var p := Find(line, pattern);
    if p.Some? {
      ReadFieldKeepsOut(line[p.value + |pattern|..], crlf, c);
    }
  }

  lemma ReadRawKeepsOut(line: string, pattern: string, c: char)
    requires c !in line
    ensures c !in ReadRawAt(line, pattern)
  {
    hide FindFrom;
  }

  /** Whatever the parser reads off a clean line is a message that would survive being sent. */
  lemma ParsedIsDeliverable(line: string)
    requires NulFree(line) && '\n' !in line && Parse(line).Some?
    ensures Deliverable(Parse(line).value)
  {
    hide ReadRawAt, TextPattern, ParseMline, IsKind, ReadAt, Has;
    ReadAtKeepsOut(line, TextPattern("sdp"), true, '\0');
    ReadAtKeepsOut(line, TextPattern("candidate"), false, '\0');
    ReadAtKeepsOut(line, TextPattern("candidate"), false, '\n');
    ReadRawKeepsOut(line, TextPattern("mid"), '\0');
    ReadRawKeepsOut(line, TextPattern("mid"), '\n');
    RawHasNoQuote(line, TextPattern("mid"));
  }

  lemma {:induction false} ReceivedIsNulFree(rs: seq<Recv>)
    ensures NulFree(Received(rs))
  {
    if rs == [] || rs[0].Closed? || rs[0].Failed? {
    } else {
      ReceivedIsNulFree(rs[1..]);
    }
  }

  ghost predicate CleanLines(lines: seq<string>) {
    forall i :: 0 <= i < |lines| ==> NulFree(lines[i]) && '\n' !in lines[i]
  }

  lemma {:induction false} LinesAreClean(s: string)
    requires NulFree(s)
    ensures CleanLines(Lines(s))
    decreases |s|
  {
    var k := IndexOf(s, '\n');
    if k == |s| {
    } else {
      LinesAreClean(s[k + 1..]);
    }
  }

  lemma {:induction false} DispatchedIsDeliverable(lines: seq<string>)
    requires CleanLines(lines)
    ensures forall i :: 0 <= i < |Dispatch(Parse, lines)| ==> Deliverable(Dispatch(Parse, lines)[i])
  {
    hide Parse, Deliverable;
    if lines == [] {
    } else {
      DispatchedIsDeliverable(lines[1..]);
      if Parse(lines[0]).Some? {
        ParsedIsDeliverable(lines[0]);
      }
    }
  }

  /**
   Main result of the wire format: however the sent bytes are cut into chunks, wherever recv would have blocked in
   between and whatever follows once the connection ends, the reader dispatches exactly the messages sent, in
   order, if and only if each of them is deliverable.
   */
  lemma EveryMessageArrives(ms: seq<Message>, rs: seq<Recv>, end: seq<Recv>)
    requires (forall i :: 0 <= i < |rs| ==> GoesOn(rs[i])) && Ended(end)
    requires Concat(Chunks(rs)) == Wire(ms)
    ensures var bytes := Received(rs + end);
            && (Dispatch(Parse, Lines(bytes)) == ms <==> forall i :: 0 <= i < |ms| ==> Deliverable(ms[i]))
            && ((forall i :: 0 <= i < |ms| ==> Deliverable(ms[i])) ==> bytes == Wire(ms) && Remainder(bytes) == "")
  {
    hide Parse, Deliverable, Lines, Dispatch, Received, Wire, Concat, Chunks, Remainder;
    if forall i :: 0 <= i < |ms| ==> Deliverable(ms[i]) {
      WireFrames(ms);
      ReceivedIsConcat(rs, end);
    }
    ReceivedIsNulFree(rs + end);
    LinesAreClean(Received(rs + end));
    DispatchedIsDeliverable(Lines(Received(rs + end)));
  }

  /** A chunk that ends right behind a NUL loses only that byte: the message arrives altered, not lost. */
  lemma NulAtCutIsDropped(x: string, y: string)
    requires NulFree(x) && NulFree(y)
    ensures Received([Data(x + "\0"), Data(y)]) == x + y
  {
    var rs := [Data(x + "\0"), Data(y)];
    assert rs[1..] == [Data(y)] && [Data(y)][1..] == [];
    IndexOfIs(x + "\0", '\0', |x|);
    IndexOfIs(y, '\0', |y|);
    assert (x + "\0")[..|x|] == x && y[..|y|] == y;
    assert Received([Data(y)]) == y + "";
  }

  lemma {:induction false} EscapeKeepsNul(s: string, crlf: bool)
    requires '\0' in s
    ensures '\0' in Escape(s, crlf)
  {
    if s[0] == '\0' {
      assert EscapeChar(s[0], crlf)[0] == '\0';
      assert Escape(s, crlf)[0] == '\0';
    } else {
      EscapeKeepsNul(s[1..], crlf);
    }
  }

  lemma NulCutsChunk(line: string, rest: string)
    requires '\0' in line && '\n' !in line
    ensures Lines(Received([Data(line + "\n" + rest)])) == []
  {
    var w := line + "\n" + rest;
    var rs := [Data(w)];
    assert rs[1..] == [];
    var k := IndexOf(line, '\0');
    assert forall j :: 0 <= j < |line| ==> w[j] == line[j];
    IndexOfIs(w, '\0', k);
    assert Received(rs) == w[..k];
    IndexOfIs(w[..k], '\n', k);
  }

  /** An offer with a NUL, received in one piece, is lost altogether. */
  lemma NulLosesOffer(sdp: string)
    requires '\0' in sdp
    ensures Dispatch(Parse, Lines(Received([Data(Wire([Offer(sdp)]))]))) == []
  {
    var m := Offer(sdp);
    var field := Escape(sdp, true);
    EscapeKeepsNul(sdp, true);
    LineKeepsOut(m, '\n');
    SdpLine("offer", field);
    assert [m][1..] == [];
    var j :| 0 <= j < |field| && field[j] == '\0';
    assert Line(m)[|KindPrefix("offer") + TextPattern("sdp")| + j] == field[j];
    NulCutsChunk(Line(m), "");
  }
}
