/** The string primitives the reference parsers and printers are built from. */
module Text {

  /** The pieces of `s` between occurrences of `sep`; one piece when `sep` does not occur. */
  function Split(s: string, sep: char): (parts: seq<string>)
    ensures |parts| >= 1
  {
    if s == "" then [""]
    else if s[0] == sep then [""] + Split(s[1..], sep)
    else
      var rest := Split(s[1..], sep);
      [[s[0]] + rest[0]] + rest[1..]
  }

  function Join(parts: seq<string>, sep: char): string {
    if parts == [] then ""
    else if |parts| == 1 then parts[0]
    else parts[0] + [sep] + Join(parts[1..], sep)
  }

  lemma JoinMore(first: string, rest: seq<string>, sep: char)
    requires rest != []
    ensures Join([first] + rest, sep) == first + ([sep] + Join(rest, sep))
  {
    assert ([first] + rest)[1..] == rest;
  }

  lemma {:induction false} SplitWhole(s: string, sep: char)
    requires sep !in s
    ensures Split(s, sep) == [s]
  {
    if s != "" {
      SplitWhole(s[1..], sep);
      assert [s[0]] + s[1..] == s;
    }
  }

  /** Splitting commutes with putting one more separator-free piece in front. */
  lemma {:induction false} SplitFront(piece: string, rest: string, sep: char)
    requires sep !in piece
    ensures Split(piece + [sep] + rest, sep) == [piece] + Split(rest, sep)
  {
    var s := piece + [sep] + rest;
    if piece == "" {
      assert s[1..] == rest;
    } else {
      SplitFront(piece[1..], rest, sep);
      assert s[1..] == piece[1..] + [sep] + rest;
      assert [piece[0]] + piece[1..] == piece;
    }
  }

  /** Splitting undoes joining separator-free pieces. */
  lemma {:induction false} SplitJoin(parts: seq<string>, sep: char)
    requires parts != [] && forall p :: p in parts ==> sep !in p
    ensures Split(Join(parts, sep), sep) == parts
  {
    if |parts| == 1 {
      SplitWhole(parts[0], sep);
    } else {
      SplitJoin(parts[1..], sep);
      SplitFront(parts[0], Join(parts[1..], sep), sep);
    }
  }

  /** No piece holds the separator. */
  lemma {:induction false} SplitPiecesAreFree(s: string, sep: char)
    ensures forall p :: p in Split(s, sep) ==> sep !in p
  {
    if s != "" {
      SplitPiecesAreFree(s[1..], sep);
      var rest := Split(s[1..], sep);
      if s[0] != sep {
        assert rest[0] in rest;
        assert forall p :: p in rest[1..] ==> p in rest;
      }
    }
  }

  /** A last piece that `front` cannot reach: whatever precedes the final separator, the last piece is `tail`. */
  lemma {:induction false} SplitLast(front: string, tail: string, sep: char)
    requires sep !in tail
    ensures var parts := Split(front + [sep] + tail, sep); parts[|parts| - 1] == tail && |parts| >= 2
  {
    var s := front + [sep] + tail;
    if front == "" {
      SplitWhole(tail, sep);
      assert s[1..] == tail;
    } else {
      SplitLast(front[1..], tail, sep);
      assert s[1..] == front[1..] + [sep] + tail;
    }
  }

  /** The first position at which `sub` occurs in `s`, or -1. */
  function Index(s: string, sub: string): (i: int)
    ensures i == -1 || (0 <= i <= |s| - |sub| && s[i..i + |sub|] == sub)
  {
    if |sub| <= |s| && s[..|sub|] == sub then 0
    else if s == "" then -1
    else
      var r := Index(s[1..], sub);
      if r < 0 then -1 else r + 1
  }

  /** A needle is found right after a prefix that does not hold its first character. */
  lemma {:induction false} IndexAfter(front: string, sub: string, rest: string)
    requires sub != "" && sub[0] !in front
    ensures Index(front + sub + rest, sub) == |front|
  {
    var s := front + sub + rest;
    if front == "" {
      assert s[..|sub|] == sub;
    } else {
      IndexAfter(front[1..], sub, rest);
      assert s[1..] == front[1..] + sub + rest;
      assert s[0] in front;
      assert s[..|sub|][0] == s[0];
    }
  }

  /** A front that does not hold the first character of a needle only moves it. */
  lemma {:induction false} IndexBehind(front: string, sub: string, rest: string)
    requires sub != "" && sub[0] !in front
    ensures Index(front + rest, sub) == if Index(rest, sub) < 0 then -1 else |front| + Index(rest, sub)
  {
    var s := front + rest;
    if front == "" {
      assert s == rest;
    } else {
      IndexBehind(front[1..], sub, rest);
      assert s[1..] == front[1..] + rest;
      assert s[0] in front;
      assert |sub| <= |s| ==> s[..|sub|][0] == s[0];
    }
  }

  /** A needle whose first character is missing from `s` does not occur. */
  lemma {:induction false} IndexAbsent(s: string, sub: string)
    requires sub != "" && sub[0] !in s
    ensures Index(s, sub) == -1
  {
    if s != "" {
      IndexAbsent(s[1..], sub);
      assert s[0] in s;
    }
  }

  predicate HasPrefix(s: string, prefix: string) {
    |prefix| <= |s| && s[..|prefix|] == prefix
  }

  function TrimPrefix(s: string, prefix: string): string {
    if HasPrefix(s, prefix) then s[|prefix|..] else s
  }

  function TrimSuffix(s: string, suffix: string): string {
    if |suffix| <= |s| && s[|s| - |suffix|..] == suffix then s[..|s| - |suffix|] else s
  }

  /** Unicode white space. */
  predicate IsSpace(c: char) {
    || c == ' ' || c == '\U{85}' || c == '\U{A0}' || c == '\U{1680}' || c == '\U{2028}'
    || c == '\U{2029}' || c == '\U{202F}' || c == '\U{205F}' || c == '\U{3000}'
    || '\t' <= c <= '\r' || '\U{2000}' <= c <= '\U{200A}'
  }

  function TrimLeft(s: string): string {
    if s != "" && IsSpace(s[0]) then TrimLeft(s[1..]) else s
  }

  function TrimRight(s: string): (t: string)
    ensures t <= s
    ensures t != "" ==> !IsSpace(t[|t| - 1])
  {
    if s != "" && IsSpace(s[|s| - 1]) then TrimRight(s[..|s| - 1]) else s
  }

  function TrimSpace(s: string): string {
    TrimRight(TrimLeft(s))
  }

  predicate Blank(s: string) {
    TrimSpace(s) == ""
  }

  lemma {:induction false} TrimmedToNothingIff(s: string)
    ensures TrimLeft(s) == "" <==> forall c :: c in s ==> IsSpace(c)
    ensures TrimRight(s) == "" <==> forall c :: c in s ==> IsSpace(c)
    decreases |s|
  {
    hide IsSpace;
    if s != "" {
      var n := |s| - 1;
      TrimmedToNothingIff(s[1..]);
      TrimmedToNothingIff(s[..n]);
      assert s == [s[0]] + s[1..] && s == s[..n] + [s[n]];
    }
  }

  /** White space and nothing else. */
  lemma BlankIff(s: string)
    ensures Blank(s) <==> forall c :: c in s ==> IsSpace(c)
  {
    TrimmedToNothingIff(s);
    TrimmedToNothingIff(TrimLeft(s));
    TrimLeftIsTail(s);
    hide IsSpace, TrimLeft, TrimRight;
  }

  lemma {:induction false} TrimLeftIsTail(s: string)
    ensures var t := TrimLeft(s);
            |t| <= |s| && s[|s| - |t|..] == t && (t != "" ==> !IsSpace(t[0]) && t[0] in s)
  {
    if s != "" && IsSpace(s[0]) { TrimLeftIsTail(s[1..]); }
  }

  /** Trimming on the left never eats a separator, so it only shortens what precedes one. */
  lemma {:induction false} TrimLeftKeepsTail(front: string, sep: char, tail: string) returns (front': string)
    requires !IsSpace(sep)
    ensures TrimLeft(front + [sep] + tail) == front' + [sep] + tail
  {
    var s := front + [sep] + tail;
    if front != "" && IsSpace(front[0]) {
      assert s[1..] == front[1..] + [sep] + tail;
      front' := TrimLeftKeepsTail(front[1..], sep, tail);
    } else {
      front' := front;
    }
  }

  /** Trimming on the right stops at a character that is no space. */
  lemma {:induction false} TrimRightKeepsFront(front: string, tail: string)
    requires front != "" && !IsSpace(front[|front| - 1])
    ensures TrimRight(front + tail) == front + TrimRight(tail)
  {
    hide IsSpace;
    var s := front + tail;
    if tail == "" {
      assert s == front;
      assert TrimRight(tail) == "";
    } else {
      var shorter := tail[..|tail| - 1];
      assert s[..|s| - 1] == front + shorter;
      assert s[|s| - 1] == tail[|tail| - 1];
      TrimRightKeepsFront(front, shorter);
    }
  }

  /** Decimal notation, as printed by the %d verb for a natural number. */
  function Decimal(n: nat): (s: string)
    ensures s != ""
  {
    if n < 10 then [('0' as int + n) as char] else Decimal(n / 10) + [('0' as int + n % 10) as char]
  }

  /** The number a string of digits denotes. */
  function Value(digits: string): int {
    if digits == "" then 0
    else Value(digits[..|digits| - 1]) * 10 + (digits[|digits| - 1] as int - '0' as int)
  }

  lemma {:induction false} ValueOfDecimal(n: nat)
    ensures Value(Decimal(n)) == n
    ensures forall c :: c in Decimal(n) ==> '0' <= c <= '9'
  {
    if n < 10 {
      assert Value("") == 0;
      assert Decimal(n)[..0] == "";
    } else {
      ValueOfDecimal(n / 10);
      var front := Decimal(n / 10);
      assert Decimal(n)[..|Decimal(n)| - 1] == front;
    }
  }
}
