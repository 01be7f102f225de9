/** String operations the library takes from Rust's standard library:
    `str::trim`, ASCII lower-casing, `str::split` on a set of separator
    characters, `join`, and decimal formatting of integers. */
module Text {

  /** Rust's `char::is_whitespace`: the code points with the Unicode
      White_Space property. */
  predicate IsWhitespace(c: char) {
    || ('\t' <= c <= '\r')
    || c == ' '
    || c == '\U{85}'
    || c == '\U{A0}'
    || c == '\U{1680}'
    || ('\U{2000}' <= c <= '\U{200A}')
    || c == '\U{2028}'
    || c == '\U{2029}'
    || c == '\U{202F}'
    || c == '\U{205F}'
    || c == '\U{3000}'
  }

  predicate AllWhitespace(s: string) {
    forall i :: 0 <= i < |s| ==> IsWhitespace(s[i])
  }

  predicate NoWhitespace(s: string) {
    forall i :: 0 <= i < |s| ==> !IsWhitespace(s[i])
  }

  /** A whitespace character in front of a run of whitespace makes a
      longer run. */
  lemma WhitespaceBeforeRun(s: string, k: nat)
    requires 0 < k <= |s| && IsWhitespace(s[0]) && AllWhitespace(s[1..k])
    ensures AllWhitespace(s[..k])
  {
    assert forall i :: 1 <= i < k ==> s[i] == s[1..k][i - 1];
  }

  /** `str::trim_start`: drops the longest all-whitespace prefix. */
  function TrimStart(s: string): (r: string)
    ensures |r| <= |s| && r == s[|s| - |r|..]
    ensures AllWhitespace(s[..|s| - |r|])
    ensures |r| > 0 ==> !IsWhitespace(r[0])
  {
    if |s| > 0 && IsWhitespace(s[0]) then
      var r := TrimStart(s[1..]);
      var k := |s| - |r|;
      assert s[1..][..k - 1] == s[1..k];
      assert s[1..][k - 1..] == s[k..];
      WhitespaceBeforeRun(s, k);
      r
    else
      s
  }

  /** `str::trim_end`: drops the longest all-whitespace suffix. */
  function TrimEnd(s: string): (r: string)
    ensures |r| <= |s| && r == s[..|r|]
    ensures AllWhitespace(s[|r|..])
    ensures |r| > 0 ==> !IsWhitespace(r[|r| - 1])
  {
    if |s| > 0 && IsWhitespace(s[|s| - 1]) then
      var r := TrimEnd(s[..|s| - 1]);
      assert s[..|s| - 1][|r|..] == s[|r|..|s| - 1];
      r
    else
      s
  }

  /** `str::trim`: the slice of `s` left once whitespace is dropped at both
      ends. */
  function Trim(s: string): (r: string)
    ensures |r| <= |s|
    ensures |r| > 0 ==> !IsWhitespace(r[0]) && !IsWhitespace(r[|r| - 1])
    ensures AllWhitespace(s) <==> r == ""
  {
    var t := TrimStart(s);
    var r := TrimEnd(t);
    if r == "" then
      assert t == "" by {
        assert t[|r|..] == t;
      }
      assert s[..|s| - |t|] == s;
      r
    else
      assert !AllWhitespace(s) by {
        assert r[0] == s[|s| - |t|];
      }
      r
  }

  /** Leading whitespace in front of a word not starting with whitespace is
      exactly what `TrimStart` removes. */
  lemma {:induction false} TrimStartPadded(pre: string, rest: string)
    requires AllWhitespace(pre)
    requires |rest| > 0 && !IsWhitespace(rest[0])
    ensures TrimStart(pre + rest) == rest
    decreases |pre|
  {
    if |pre| > 0 {
      assert (pre + rest)[1..] == pre[1..] + rest;
      TrimStartPadded(pre[1..], rest);
    } else {
      assert pre + rest == rest;
    }
  }

  /** Trailing whitespace after a word not ending in whitespace is exactly
      what `TrimEnd` removes. */
  lemma {:induction false} TrimEndPadded(rest: string, post: string)
    requires AllWhitespace(post)
    requires |rest| > 0 && !IsWhitespace(rest[|rest| - 1])
    ensures TrimEnd(rest + post) == rest
    decreases |post|
  {
    if |post| > 0 {
      assert (rest + post)[..|rest + post| - 1] == rest + post[..|post| - 1];
      TrimEndPadded(rest, post[..|post| - 1]);
    } else {
      assert rest + post == rest;
    }
  }

  /** Whitespace added around a word that neither starts nor ends with
      whitespace is exactly what `Trim` removes. */
  lemma {:induction false} TrimPadded(pre: string, w: string, post: string)
    requires AllWhitespace(pre) && AllWhitespace(post)
    requires |w| > 0 && !IsWhitespace(w[0]) && !IsWhitespace(w[|w| - 1])
    ensures Trim(pre + w + post) == w
  {
    assert pre + w + post == pre + (w + post);
    TrimStartPadded(pre, w + post);
    TrimEndPadded(w, post);
  }

  /** ASCII lower-casing of one character; other characters are unchanged. */
  function LowerChar(c: char): (d: char)
    ensures 'A' <= c <= 'Z' ==> 'a' <= d <= 'z' && d as int - c as int == 32
    ensures !('A' <= c <= 'Z') ==> d == c
  {
    if 'A' <= c <= 'Z' then (c as int + 32) as char else c
  }

  predicate HasNoUpper(s: string) {
    forall i :: 0 <= i < |s| ==> !('A' <= s[i] <= 'Z')
  }

  /** Lower-casing of a string, character by character. */
  function ToLower(s: string): (r: string)
    ensures |r| == |s|
    ensures forall i :: 0 <= i < |s| ==> r[i] == LowerChar(s[i])
    ensures HasNoUpper(r)
    ensures HasNoUpper(s) ==> r == s
  {
    seq(|s|, i requires 0 <= i < |s| => LowerChar(s[i]))
  }

  /** ASCII upper-casing of one character; other characters are
      unchanged. */
  function UpperChar(c: char): (d: char)
    ensures 'a' <= c <= 'z' ==> 'A' <= d <= 'Z' && c as int - d as int == 32
    ensures !('a' <= c <= 'z') ==> d == c
  {
    if 'a' <= c <= 'z' then (c as int - 32) as char else c
  }

  /** Upper-casing of a string, character by character. */
  function ToUpper(s: string): (r: string)
    ensures |r| == |s|
    ensures forall i :: 0 <= i < |s| ==> r[i] == UpperChar(s[i])
  {
    seq(|s|, i requires 0 <= i < |s| => UpperChar(s[i]))
  }

  /** `str::split` with a set of separator characters: the pieces between
      separators, including empty ones, in order. */
  function Split(s: string, seps: set<char>): (r: seq<string>)
    ensures |r| >= 1
    ensures forall i, j :: 0 <= i < |r| && 0 <= j < |r[i]| ==> r[i][j] !in seps
  {
    if |s| == 0 then
      [""]
    else if s[0] in seps then
      [""] + Split(s[1..], seps)
    else
      var rest := Split(s[1..], seps);
      [[s[0]] + rest[0]] + rest[1..]
  }

  predicate SeparatorFree(s: string, seps: set<char>) {
    forall j :: 0 <= j < |s| ==> s[j] !in seps
  }

  /** The pieces joined with `sep` between each pair (`[..].join(sep)`). */
  function Join(parts: seq<string>, sep: string): (r: string)
    ensures |parts| == 1 ==> r == parts[0]
    ensures |parts| == 0 ==> r == ""
  {
    if |parts| == 0 then ""
    else if |parts| == 1 then parts[0]
    else parts[0] + sep + Join(parts[1..], sep)
  }

  /** The separator characters of `s`, in order. */
  function SeparatorsIn(s: string, seps: set<char>): (r: string)
    ensures forall j :: 0 <= j < |r| ==> r[j] in seps
    ensures |r| <= |s|
  {
    if |s| == 0 then ""
    else if s[0] in seps then [s[0]] + SeparatorsIn(s[1..], seps)
    else SeparatorsIn(s[1..], seps)
  }

  /** The pieces with the given characters between them, one character
      between each neighbouring pair. */
  function Interleave(parts: seq<string>, cs: string): string
    requires |parts| == |cs| + 1
  {
    if |cs| == 0 then parts[0]
    else parts[0] + [cs[0]] + Interleave(parts[1..], cs[1..])
  }

  /** Putting a character in front of the first piece puts it in front of
      the whole. */
  lemma InterleaveHead(c: char, parts: seq<string>, cs: string)
    requires |parts| == |cs| + 1
    ensures Interleave([[c] + parts[0]] + parts[1..], cs) == [c] + Interleave(parts, cs)
  {
    var q := [[c] + parts[0]] + parts[1..];
    assert q[0] == [c] + parts[0];
    assert q[1..] == parts[1..];
  }

  /** `Split` loses nothing: there is one piece more than there are
      separators in `s`, and putting those separators back between the
      pieces, in order, gives `s` again. */
  lemma {:induction false} SplitRejoins(s: string, seps: set<char>)
    ensures |Split(s, seps)| == |SeparatorsIn(s, seps)| + 1
    ensures Interleave(Split(s, seps), SeparatorsIn(s, seps)) == s
    decreases |s|
  {
    if |s| > 0 {
      SplitRejoins(s[1..], seps);
      var rest := Split(s[1..], seps);
      if s[0] in seps {
        var parts := [""] + rest;
        assert parts[0] == "" && parts[1..] == rest;
      } else {
        InterleaveHead(s[0], rest, SeparatorsIn(s[1..], seps));
      }
      assert [s[0]] + s[1..] == s;
    }
  }

  /** A separator-free piece followed by a separator splits off as one piece. */
  lemma {:induction false} SplitAfterPiece(a: string, c: char, b: string, seps: set<char>)
    requires SeparatorFree(a, seps) && c in seps
    ensures Split(a + [c] + b, seps) == [a] + Split(b, seps)
    decreases |a|
  {
    if |a| == 0 {
      assert a + [c] + b == [c] + b;
      assert ([c] + b)[1..] == b;
    } else {
      var s := a + [c] + b;
      assert s[0] == a[0];
      assert s[1..] == a[1..] + [c] + b;
      SplitAfterPiece(a[1..], c, b, seps);
      assert [a[0]] + a[1..] == a;
    }
  }

  /** A separator-free string is a single piece. */
  lemma {:induction false} SplitSinglePiece(a: string, seps: set<char>)
    requires SeparatorFree(a, seps)
    ensures Split(a, seps) == [a]
    decreases |a|
  {
    if |a| > 0 {
      SplitSinglePiece(a[1..], seps);
      assert [a[0]] + a[1..] == a;
    }
  }

  /** Splitting undoes joining with a one-character separator, provided no
      piece contains a separator. */
  lemma {:induction false} SplitJoin(parts: seq<string>, c: char, seps: set<char>)
    requires |parts| >= 1 && c in seps
    requires forall i :: 0 <= i < |parts| ==> SeparatorFree(parts[i], seps)
    ensures Split(Join(parts, [c]), seps) == parts
    decreases |parts|
  {
    if |parts| == 1 {
      SplitSinglePiece(parts[0], seps);
    } else {
      SplitJoin(parts[1..], c, seps);
      SplitAfterPiece(parts[0], c, Join(parts[1..], [c]), seps);
      assert [parts[0]] + parts[1..] == parts;
    }
  }

  /** Every piece but the first with `pad` put in front of it. */
  function PadTail(parts: seq<string>, pad: string): (r: seq<string>)
    ensures |r| == |parts|
    ensures |parts| > 0 ==> r[0] == parts[0]
    ensures forall i :: 0 < i < |parts| ==> r[i] == pad + parts[i]
  {
    if |parts| == 0 then [] else [parts[0]] + seq(|parts| - 1, i requires 0 <= i < |parts| - 1 => pad + parts[i + 1])
  }

  /** Joining a piece in front of more pieces. */
  lemma JoinCons(x: string, rest: seq<string>, sep: string)
    requires |rest| >= 1
    ensures Join([x] + rest, sep) == x + sep + Join(rest, sep)
  {
    var q := [x] + rest;
    assert q[0] == x && q[1..] == rest;
  }

  /** Padding the pieces after the first, one piece at a time. */
  lemma PadTailStep(parts: seq<string>, pad: string)
    requires |parts| > 1
    ensures PadTail(parts, pad)[1..] == [pad + parts[1]] + PadTail(parts[1..], pad)[1..]
  {
  }

  /** Putting padding in front of the first piece puts it in front of the
      whole join. */
  lemma JoinPadFirst(pad: string, parts: seq<string>, sep: string)
    requires |parts| >= 1
    ensures Join([pad + parts[0]] + parts[1..], sep) == pad + Join(parts, sep)
  {
    if |parts| > 1 {
      JoinCons(pad + parts[0], parts[1..], sep);
      JoinCons(parts[0], parts[1..], sep);
      assert [parts[0]] + parts[1..] == parts;
    } else {
      assert [pad + parts[0]] + parts[1..] == [pad + parts[0]];
    }
  }

  /** Joining with a separator followed by padding is joining the padded
      pieces with the bare separator. */
  lemma {:induction false} JoinPadded(parts: seq<string>, c: char, pad: string)
    requires |parts| >= 1
    ensures Join(parts, [c] + pad) == Join(PadTail(parts, pad), [c])
    decreases |parts|
  {
    if |parts| > 1 {
      var tail := parts[1..];
      JoinPadded(tail, c, pad);
      var pt := PadTail(parts, pad);
      var ptt := PadTail(tail, pad);
      PadTailStep(parts, pad);
      assert ptt[0] == tail[0];
      assert [ptt[0]] + ptt[1..] == ptt;
      JoinPadFirst(pad, ptt, [c]);
      assert Join(pt[1..], [c]) == pad + Join(ptt, [c]);
      assert [pt[0]] + pt[1..] == pt;
      JoinCons(pt[0], pt[1..], [c]);
      assert [parts[0]] + tail == parts;
      JoinCons(parts[0], tail, [c] + pad);
    }
  }

  predicate IsDigit(c: char) {
    '0' <= c <= '9'
  }

  predicate AllDigits(s: string) {
    forall i :: 0 <= i < |s| ==> IsDigit(s[i])
  }

  /** The value of a string of decimal digits. */
  function DigitsValue(s: string): nat
    requires AllDigits(s)
  {
    if |s| == 0 then 0 else DigitsValue(s[..|s| - 1]) * 10 + (s[|s| - 1] as int - '0' as int)
  }

  /** Rust's `Display` for an unsigned integer: its decimal digits, no sign,
      no leading zeros. */
  function Decimal(n: nat): (s: string)
    ensures |s| >= 1 && AllDigits(s)
    ensures |s| > 1 ==> s[0] != '0'
    ensures DigitsValue(s) == n
  {
    var last := ['0' + (n % 10) as char];
    if n < 10 then
      last
    else
      var s := Decimal(n / 10) + last;
      assert s[..|s| - 1] == Decimal(n / 10);
      s
  }
}
