/** Stateless session tokens: printing, splitting, parsing and the expiry rule. */
module SessionToken {
  import opened Basics

  const TTL := 86400
  const INT_MIN := -0x8000_0000
  const INT_MAX := 0x7fff_ffff
  const LLONG_MIN := -0x8000_0000_0000_0000
  const LLONG_MAX := 0x7fff_ffff_ffff_ffff

  /** HMAC-SHA256 in hexadecimal: key and message to a tag. */
  type Hmac = (string, string) -> string

  predicate DotFree(s: string) {
    '.' !in s
  }

  /** A tag is never empty and holds no dot. */
  ghost predicate HexTags(hmac: Hmac) {
    forall key, m :: hmac(key, m) != "" && DotFree(hmac(key, m))
  }

  // ---------------------------------------------------------------- numbers as text

  predicate IsDigit(c: char) {
    '0' <= c <= '9'
  }

  function Digit(d: nat): (c: char)
    requires d < 10
    ensures IsDigit(c) && c as int - '0' as int == d
  {
    ('0' as int + d) as char
  }

  function PrintNat(n: nat): string {
    if n < 10 then [Digit(n)] else PrintNat(n / 10) + [Digit(n % 10)]
  }

  function Print(n: int): string {
    if n < 0 then "-" + PrintNat(-n) else PrintNat(n)
  }

  /** How many digits s begins with. */
  function Run(s: string): (n: nat)
    ensures n <= |s| && (forall i :: 0 <= i < n ==> IsDigit(s[i])) && (n < |s| ==> !IsDigit(s[n]))
  {
    if s == "" || !IsDigit(s[0]) then 0 else 1 + Run(s[1..])
  }

  function Value(digits: string): int
    requires forall i :: 0 <= i < |digits| ==> IsDigit(digits[i])
  {
    if digits == "" then 0 else
    var n := |digits| - 1;
    10 * Value(digits[..n]) + (digits[n] as int - '0' as int)
  }

  function AfterSpace(s: string): string {
    if s != "" && IsSpace(s[0]) then AfterSpace(s[1..]) else s
  }

  /** The integer s begins with: spaces, a sign, at least one digit; anything after the digits is ignored, and a value out of range is an error. */
  function Parse(s: string, low: int, high: int): Option<int> {
    var t := AfterSpace(s);
    var signed := t != "" && (t[0] == '-' || t[0] == '+');
    var u := if signed then t[1..] else t;
    var run := Run(u);
    if run == 0 then None else
    var v := if signed && t[0] == '-' then -Value(u[..run]) else Value(u[..run]);
    if low <= v <= high then Some(v) else None
  }

  function Stoi(s: string): Option<int> {
    Parse(s, INT_MIN, INT_MAX)
  }

  function Stoll(s: string): Option<int> {
    Parse(s, LLONG_MIN, LLONG_MAX)
  }

  lemma {:induction false} PrintedDigits(n: nat)
    ensures AllDigits(PrintNat(n)) && Value(PrintNat(n)) == n
  {
    if n >= 10 {
      PrintedDigits(n / 10);
      var s := PrintNat(n);
      assert s[..|s| - 1] == PrintNat(n / 10);
    }
  }

  /** Parsing a printed number gives it back exactly when it is in range. */
  lemma {:induction false} ParsePrinted(n: int, low: int, high: int)
    ensures Parse(Print(n), low, high) == if low <= n <= high then Some(n) else None
    ensures DotFree(Print(n)) && Print(n) != ""
  {
    if n < 0 {
      PrintedDigits(-n);
      ParseNegative(PrintNat(-n), low, high);
    } else {
      PrintedDigits(n);
      ParseDigits(PrintNat(n), low, high);
    }
  }

  /** A printed number has no leading zero, no plus sign and no space: a minus sign exactly when it is negative, then digits. */
  lemma {:induction false} PrintIsCanonical(n: int)
    ensures n >= 0 ==> AllDigits(Print(n)) && (Print(n)[0] == '0' ==> Print(n) == "0" && n == 0)
    ensures n < 0 ==> Print(n)[0] == '-' && AllDigits(Print(n)[1..]) && Print(n)[1] != '0'
  {
    NoLeadingZero(if n < 0 then -n else n);
    PrintedDigits(if n < 0 then -n else n);
    if n < 0 {
      assert Print(n)[1..] == PrintNat(-n);
    }
  }

  lemma {:induction false} NoLeadingZero(n: nat)
    ensures PrintNat(n) != "" && (PrintNat(n)[0] == '0' ==> PrintNat(n) == "0" && n == 0)
  {
    if n >= 10 {
      NoLeadingZero(n / 10);
      assert PrintNat(n)[0] == PrintNat(n / 10)[0];
    }
  }

  /** Leading zeros add nothing. */
  lemma {:induction false} LeadingZero(digits: string)
    requires AllDigits(digits)
    ensures Value("0" + digits) == Value(digits)
  {
    var n := |digits| - 1;
    var s := "0" + digits;
    assert s[..|s| - 1] == "0" + digits[..n];
    if n > 0 {
      LeadingZero(digits[..n]);
    } else {
      assert digits[..n] == "" && "0" + "" == "0";
      assert "0"[..0] == "";
      assert Value("0") == 0;
    }
  }

  /** Spaces, at most one sign, digits, and a rest that begins with no digit. */
  ghost predicate Numeral(s: string, spaces: string, sign: string, digits: string, rest: string) {
    && s == spaces + (sign + (digits + rest))
    && (forall i :: 0 <= i < |spaces| ==> spaces[i] as int == 32 || 9 <= spaces[i] as int <= 13)
    && (sign == "" || sign == "+" || sign == "-")
    && AllDigits(digits) && (rest == "" || !IsDigit(rest[0]))
  }

  /** A text of that form is read as its digits under their sign, or is out of range. */
  lemma {:induction false} ParseNumeral(s: string, spaces: string, sign: string, digits: string, rest: string, low: int, high: int)
    requires Numeral(s, spaces, sign, digits, rest)
    ensures var v := if sign == "-" then -Value(digits) else Value(digits);
            Parse(s, low, high) == if low <= v <= high then Some(v) else None
  {
    var t, u := sign + (digits + rest), digits + rest;
    assert t[0] == (if sign == "" then digits[0] else sign[0]);
    SkipSpaces(spaces, t);
    RunThenRest(digits, rest);
    if sign == "" {
      assert t == u && IsDigit(t[0]);
    } else {
      assert t[1..] == u;
    }
    assert u[..|digits|] == digits;
  }

  lemma {:induction false} SkipSpaces(spaces: string, t: string)
    requires forall i :: 0 <= i < |spaces| ==> spaces[i] as int == 32 || 9 <= spaces[i] as int <= 13
    requires t != "" && !IsSpace(t[0])
    ensures AfterSpace(spaces + t) == t
  {
    if spaces != "" {
      assert (spaces + t)[1..] == spaces[1..] + t;
      assert IsSpace(spaces[0]);
      SkipSpaces(spaces[1..], t);
    } else {
      assert spaces + t == t;
    }
  }

  lemma {:induction false} RunThenRest(digits: string, rest: string)
    requires (forall i :: 0 <= i < |digits| ==> IsDigit(digits[i])) && (rest == "" || !IsDigit(rest[0]))
    ensures Run(digits + rest) == |digits|
  {
    if digits != "" {
      assert (digits + rest)[1..] == digits[1..] + rest;
      RunThenRest(digits[1..], rest);
    } else {
      assert digits + rest == rest;
    }
  }

  /** Nothing else is read: whatever parses has that form. */
  lemma {:induction false} ParsedIsNumeral(s: string, low: int, high: int) returns (spaces: string, sign: string, digits: string, rest: string)
    requires Parse(s, low, high).Some?
    ensures Numeral(s, spaces, sign, digits, rest)
  {
    spaces := SpacesBefore(s);
    var u;
    sign, u := SignBefore(AfterSpace(s));
    ParsedHasDigits(s, low, high, u);
    digits, rest := DigitsBefore(u);
  }

  ghost predicate Unsigns(t: string, u: string) {
    u == if t != "" && (t[0] == '-' || t[0] == '+') then t[1..] else t
  }

  lemma {:induction false} ParsedHasDigits(s: string, low: int, high: int, u: string)
    requires Parse(s, low, high).Some? && Unsigns(AfterSpace(s), u)
    ensures Run(u) > 0
  {
  }

  lemma {:induction false} DigitsBefore(u: string) returns (digits: string, rest: string)
    requires Run(u) > 0
    ensures u == digits + rest && AllDigits(digits) && (rest == "" || !IsDigit(rest[0]))
  {
    digits, rest := u[..Run(u)], u[Run(u)..];
  }

  lemma {:induction false} SignBefore(t: string) returns (sign: string, u: string)
    ensures t == sign + u && (sign == "" || sign == "+" || sign == "-") && Unsigns(t, u)
  {
    if t != "" && (t[0] == '-' || t[0] == '+') {
      sign, u := [t[0]], t[1..];
    } else {
      sign, u := "", t;
    }
  }

  lemma {:induction false} SpacesBefore(s: string) returns (spaces: string)
    ensures s == spaces + AfterSpace(s)
    ensures forall i :: 0 <= i < |spaces| ==> spaces[i] as int == 32 || 9 <= spaces[i] as int <= 13
  {
    var n := SpaceCount(s);
    spaces := s[..n];
  }

  lemma {:induction false} SpaceCount(s: string) returns (n: nat)
    ensures n <= |s| && AfterSpace(s) == s[n..] && forall i :: 0 <= i < n ==> IsSpace(s[i])
  {
    if s != "" && IsSpace(s[0]) {
      n := SpaceCount(s[1..]);
      n := n + 1;
      assert s[1..][n - 1..] == s[n..];
      assert forall i :: 0 < i < n ==> s[i] == s[1..][i - 1];
    } else {
      n := 0;
    }
  }

  ghost predicate AllDigits(s: string) {
    s != "" && forall i :: 0 <= i < |s| ==> IsDigit(s[i])
  }

  lemma {:induction false} RunOfDigits(digits: string)
    requires AllDigits(digits)
    ensures Run(digits) == |digits| && digits[..|digits|] == digits && DotFree(digits)
  {
  }

  lemma {:induction false} ParseDigits(digits: string, low: int, high: int)
    requires AllDigits(digits)
    ensures var v := Value(digits); Parse(digits, low, high) == if low <= v <= high then Some(v) else None
    ensures DotFree(digits)
  {
    RunOfDigits(digits);
    assert IsDigit(digits[0]) && AfterSpace(digits) == digits;
  }

  lemma {:induction false} ParseNegative(digits: string, low: int, high: int)
    requires AllDigits(digits)
    ensures var v := -Value(digits); Parse("-" + digits, low, high) == if low <= v <= high then Some(v) else None
    ensures DotFree("-" + digits)
  {
    RunOfDigits(digits);
    var s := "-" + digits;
    assert s[0] == '-' && s[1..] == digits && AfterSpace(s) == s;
  }

  // ---------------------------------------------------------------- splitting

  /** The position of the first dot, or the length. */
  function FirstDot(s: string): (n: nat)
    ensures n <= |s| && DotFree(s[..n]) && (n < |s| ==> s[n] == '.')
  {
    if s == "" || s[0] == '.' then 0 else
    var n := 1 + FirstDot(s[1..]);
    assert s[..n] == [s[0]] + s[1..][..n - 1];
    n
  }

  /** What repeated getline yields: an empty last segment is not seen. */
  function Segments(s: string): seq<string> {
    if s == "" then [] else
    var n := FirstDot(s);
    if n == |s| then [s] else [s[..n]] + Segments(s[n + 1..])
  }

  method Split(token: string) returns (segments: seq<string>)
    ensures segments == Segments(token)
  {
    segments := [];
    var rest := token;
    while rest != ""
      invariant segments + Segments(rest) == Segments(token)
      decreases |rest|
    {
      var segment;
      segment, rest := GetLine(rest, segments);
      segments := segments + [segment];
    }
  }

  /** Takes the text up to the next dot, and the dot. */
  method GetLine(s: string, ghost before: seq<string>) returns (segment: string, rest: string)
    requires s != ""
    ensures |rest| < |s| && before + [segment] + Segments(rest) == before + Segments(s)
  {
    var n := FirstDot(s);
    segment := s[..n];
    rest := if n == |s| then "" else s[n + 1..];
    Regroup(before, segment, Segments(rest));
    if n == |s| {
      assert Segments(rest) == [] && segment == s && [s] + [] == [s];
    }
  }

  lemma {:induction false} Regroup(before: seq<string>, segment: string, after: seq<string>)
    ensures before + [segment] + after == before + ([segment] + after)
  {
  }

  lemma {:induction false} FirstDotAfter(a: string, rest: string)
    requires DotFree(a) && (rest == "" || rest[0] == '.')
    ensures FirstDot(a + rest) == |a|
  {
    if a != "" {
      assert (a + rest)[1..] == a[1..] + rest;
      assert a[0] in a;
      FirstDotAfter(a[1..], rest);
    } else {
      assert a + rest == rest;
    }
  }

  /** One segment, then the rest. */
  lemma {:induction false} SegmentsAfterDot(a: string, rest: string)
    requires DotFree(a)
    ensures Segments(a + ("." + rest)) == [a] + Segments(rest)
  {
    var s := a + ("." + rest);
    FirstDotAfter(a, "." + rest);
    assert s[..|a|] == a && s[|a| + 1..] == rest;
  }

  lemma {:induction false} LastSegment(c: string)
    requires DotFree(c) && c != ""
    ensures Segments(c) == [c] && Segments(c + ".") == [c]
  {
    FirstDotAfter(c, "");
    assert c + "" == c;
    SegmentsAfterDot(c, "");
    assert c + ("." + "") == c + ".";
  }

  function Joined(a: string, b: string, c: string): string {
    a + ("." + (b + ("." + c)))
  }

  lemma {:induction false} JoinedForms(a: string, b: string, c: string)
    ensures a + "." + b + "." + c == Joined(a, b, c)
    ensures Joined(a, b, c) + "." == Joined(a, b, c + ".")
  {
    var s, t := a + "." + b + "." + c, Joined(a, b, c);
    assert |s| == |t| && forall i :: 0 <= i < |s| ==> s[i] == t[i];
    var s', t' := t + ".", Joined(a, b, c + ".");
    assert |s'| == |t'| && forall i :: 0 <= i < |s'| ==> s'[i] == t'[i];
  }

  /** Three non-dotted parts, the last not empty, come from exactly two texts: joined by dots, or that with one more dot. */
  lemma {:induction false} SegmentsIff(token: string, a: string, b: string, c: string)
    requires c != ""
    ensures Segments(token) == [a, b, c] <==>
            DotFree(a) && DotFree(b) && DotFree(c) && (token == Joined(a, b, c) || token == Joined(a, b, c) + ".")
  {
    JoinedForms(a, b, c);
    if Segments(token) == [a, b, c] {
      PartsOfSegments(token, a, b, c);
    }
    if DotFree(a) && DotFree(b) && DotFree(c) {
      SegmentsOfParts(a, b, c, c);
      SegmentsOfParts(a, b, c, c + ".");
    }
  }

  lemma {:induction false} PartsOfSegments(token: string, a: string, b: string, c: string)
    requires Segments(token) == [a, b, c]
    ensures DotFree(a) && DotFree(b) && DotFree(c) && (token == Joined(a, b, c) || token == Joined(a, b, c + "."))
  {
    assert [a, b, c] == [a] + [b, c] && [b, c] == [b] + [c] && [c] == [c] + [];
    SegmentsInvert(token, a, [b, c]);
    var t1 := token[|a| + 1..];
    SegmentsInvert(t1, b, [c]);
    SegmentsInvert(t1[|b| + 1..], c, []);
  }

  lemma {:induction false} SegmentsOfParts(a: string, b: string, c: string, t: string)
    requires DotFree(a) && DotFree(b) && DotFree(c) && c != "" && (t == c || t == c + ".")
    ensures Segments(Joined(a, b, t)) == [a, b, c]
  {
    LastSegment(c);
    SegmentsAfterDot(b, t);
    SegmentsAfterDot(a, b + ("." + t));
  }

  lemma {:induction false} SegmentsInvert(s: string, a: string, more: seq<string>)
    requires Segments(s) == [a] + more
    ensures DotFree(a) && (more != [] ==> |s| > |a| && s == a + ("." + s[|a| + 1..]) && Segments(s[|a| + 1..]) == more)
    ensures more == [] ==> s == a || s == a + "."
  {
    if FirstDot(s) == |s| {
      OnlySegment(s, a, more);
    } else {
      FirstOfMany(s, a, more);
    }
  }

  lemma {:induction false} OnlySegment(s: string, a: string, more: seq<string>)
    requires FirstDot(s) == |s| && Segments(s) == [a] + more
    ensures s == a && more == [] && DotFree(a)
  {
    assert s[..|s|] == s && [s] == [s] + [];
    SameParts(s, [], a, more);
  }

  lemma {:induction false} FirstOfMany(s: string, a: string, more: seq<string>)
    requires FirstDot(s) < |s| && Segments(s) == [a] + more
    ensures DotFree(a) && |s| > |a| && s == a + ("." + s[|a| + 1..]) && Segments(s[|a| + 1..]) == more
    ensures more == [] ==> s == a + "."
  {
    var n := FirstDot(s);
    SameParts(s[..n], Segments(s[n + 1..]), a, more);
    assert |a| == n;
    CutAtDot(s, n);
    NoSegmentsIff(s[n + 1..]);
  }

  lemma {:induction false} NoSegmentsIff(s: string)
    ensures Segments(s) == [] <==> s == ""
  {
  }

  lemma {:induction false} SameParts(x: string, xs: seq<string>, y: string, ys: seq<string>)
    requires [x] + xs == [y] + ys
    ensures x == y && xs == ys
  {
    assert x == ([x] + xs)[0] && y == ([y] + ys)[0];
    assert xs == ([x] + xs)[1..] && ys == ([y] + ys)[1..];
  }

  lemma {:induction false} CutAtDot(s: string, n: nat)
    requires n < |s| && s[n] == '.'
    ensures s == s[..n] + ("." + s[n + 1..])
    ensures s[n + 1..] == "" ==> s == s[..n] + "."
  {
  }

  // ---------------------------------------------------------------- tokens

  function GenerateSessionToken(user: int, now: int, key: string, hmac: Hmac): string {
    var payload := Print(user) + "." + Print(now + TTL);
    payload + "." + hmac(key, payload)
  }

  method VerifySessionToken(token: string, key: string, now: int, hmac: Hmac) returns (user: Option<int>)
    requires HexTags(hmac)
    ensures forall u :: user == Some(u) <==> Accepts(token, key, now, hmac, u)
  {
    var segments := Split(token);
    if |segments| != 3 {
      NotThreeSegments(token, key, now, hmac);
      return None;
    }
    var payload := segments[0] + "." + segments[1];
    assert segments == [segments[0], segments[1], segments[2]];
    ThreeSegments(token, segments[0], segments[1], segments[2], key, now, hmac);
    if segments[2] != hmac(key, payload) {
      return None;
    }
    var expiry := Stoll(segments[1]);
    if expiry.None? || now > expiry.value {
      return None;
    }
    user := Stoi(segments[0]);
  }

  /** What a token must be to log user u in: two dot-free fields under their own tag, at most one stray dot, not expired. */
  ghost predicate Accepts(token: string, key: string, now: int, hmac: Hmac, u: int) {
    exists a, b :: Signed(token, a, b, key, hmac) && Fresh(b, now) && Stoi(a) == Some(u)
  }

  ghost predicate Signed(token: string, a: string, b: string, key: string, hmac: Hmac) {
    && DotFree(a) && DotFree(b)
    && var whole := Joined(a, b, hmac(key, a + "." + b));
    token == whole || token == whole + "."
  }

  predicate Fresh(b: string, now: int) {
    Stoll(b).Some? && now <= Stoll(b).value
  }

  lemma {:induction false} SignedIff(token: string, a: string, b: string, key: string, hmac: Hmac)
    requires HexTags(hmac)
    ensures Signed(token, a, b, key, hmac) <==> Segments(token) == [a, b, hmac(key, a + "." + b)]
  {
    SegmentsIff(token, a, b, hmac(key, a + "." + b));
  }

  lemma {:induction false} NotThreeSegments(token: string, key: string, now: int, hmac: Hmac)
    requires HexTags(hmac) && |Segments(token)| != 3
    ensures forall u :: !Accepts(token, key, now, hmac, u)
  {
    forall a, b
      ensures !Signed(token, a, b, key, hmac)
    {
      SignedIff(token, a, b, key, hmac);
    }
  }

  lemma {:induction false} ThreeSegments(token: string, a: string, b: string, c: string, key: string, now: int, hmac: Hmac)
    requires HexTags(hmac) && Segments(token) == [a, b, c]
    ensures forall u :: Accepts(token, key, now, hmac, u) <==> c == hmac(key, a + "." + b) && Fresh(b, now) && Stoi(a) == Some(u)
  {
    forall x, y
      ensures Signed(token, x, y, key, hmac) <==> x == a && y == b && c == hmac(key, a + "." + b)
    {
      SignedIff(token, x, y, key, hmac);
      if Segments(token) == [x, y, hmac(key, x + "." + y)] {
        assert Segments(token)[0] == x && Segments(token)[1] == y && Segments(token)[2] == hmac(key, x + "." + y);
      }
    }
  }

  /** Neither field is accepted beyond its integer type. */
  lemma {:induction false} FieldsAreBounded(token: string, key: string, now: int, hmac: Hmac, u: int)
    requires Accepts(token, key, now, hmac, u)
    ensures -2147483648 <= u <= 2147483647 && now <= 9223372036854775807
  {
  }

  /** A generated token names its user up to and including 24 hours after issue, and nobody afterwards. */
  lemma {:induction false} TokenRoundTrip(user: int, issued: int, now: int, key: string, hmac: Hmac, u: int)
    requires HexTags(hmac) && -2147483648 <= user <= 2147483647
    requires -9223372036854775808 <= issued + 86400 <= 9223372036854775807
    ensures Accepts(GenerateSessionToken(user, issued, key, hmac), key, now, hmac, u) <==> u == user && now <= issued + 86400
  {
    var a, b := Print(user), Print(issued + TTL);
    ParsePrinted(user, INT_MIN, INT_MAX);
    ParsePrinted(issued + TTL, LLONG_MIN, LLONG_MAX);
    TokenIsSigned(a, b, key, hmac);
    ThreeSegments(GenerateSessionToken(user, issued, key, hmac), a, b, hmac(key, a + "." + b), key, now, hmac);
  }

  lemma {:induction false} TokenIsSigned(a: string, b: string, key: string, hmac: Hmac)
    requires HexTags(hmac) && DotFree(a) && DotFree(b)
    ensures var tag := hmac(key, a + "." + b); Segments(a + "." + b + "." + tag) == [a, b, tag]
  {
    var tag := hmac(key, a + "." + b);
    JoinedForms(a, b, tag);
    SegmentsOfParts(a, b, tag, tag);
  }
}
