/** What Python's `split()` makes of a line of bytes, and of a line of text in UTF-8 (RFC 3629, section 4). */
module Words {
  import opened Common

  const SPACE: Byte := 32

  // ----- characters

  predicate IsTail(c: Byte) { 0x80 <= c <= 0xBF }

  /** The first two bytes of a character of three. */
  predicate OpensThree(c: Byte, d: Byte) {
    || (c == 0xE0 && 0xA0 <= d <= 0xBF)
    || (0xE1 <= c <= 0xEC && IsTail(d))
    || (c == 0xED && 0x80 <= d <= 0x9F)
    || (0xEE <= c <= 0xEF && IsTail(d))
  }

  /** The first two bytes of a character of four. */
  predicate OpensFour(c: Byte, d: Byte) {
    || (c == 0xF0 && 0x90 <= d <= 0xBF)
    || (0xF1 <= c <= 0xF3 && IsTail(d))
    || (c == 0xF4 && 0x80 <= d <= 0x8F)
  }

  /** How many bytes the first character has; 0 if there is none. */
  function CharLength(s: Bytes): (n: nat)
    ensures n <= |s|
  {
    if s == [] then 0
    else if s[0] < 0x80 then 1
    else if |s| >= 2 && 0xC2 <= s[0] <= 0xDF && IsTail(s[1]) then 2
    else if |s| >= 3 && OpensThree(s[0], s[1]) && IsTail(s[2]) then 3
    else if |s| >= 4 && OpensFour(s[0], s[1]) && IsTail(s[2]) && IsTail(s[3]) then 4
    else 0
  }

  /** `s.decode('utf8')` succeeds. */
  predicate Decodable(s: Bytes)
    decreases |s|
  {
    s == [] || (CharLength(s) > 0 && Decodable(s[CharLength(s)..]))
  }

  // ----- words

  /** Whether the words of `bytes` or those of `str` are meant. */
  datatype Kind = Raw | Text

  predicate IsSpace(c: Byte, kind: Kind) {
    c == SPACE || 9 <= c <= 13 || (kind.Text? && 28 <= c <= 31)
  }

  /** How many bytes the whitespace character at the beginning has; 0 if there is none. Beyond ASCII these are U+0085
      and U+00A0, then U+1680, U+2000 to U+200A, U+2028, U+2029, U+202F, U+205F and U+3000. */
  function SpaceLength(s: Bytes, kind: Kind): (n: nat)
    ensures n <= |s|
  {
    if s == [] then 0
    else if IsSpace(s[0], kind) then 1
    else if kind.Raw? then 0
    else if |s| >= 2 && s[0] == 0xC2 && (s[1] == 0x85 || s[1] == 0xA0) then 2
    else if |s| >= 3 && s[0] == 0xE1 && s[1] == 0x9A && s[2] == 0x80 then 3
    else if |s| >= 3 && s[0] == 0xE2 && s[1] == 0x80
            && (0x80 <= s[2] <= 0x8A || 0xA8 <= s[2] <= 0xA9 || s[2] == 0xAF) then 3
    else if |s| >= 3 && s[0] == 0xE2 && s[1] == 0x81 && s[2] == 0x9F then 3
    else if |s| >= 3 && s[0] == 0xE3 && s[1] == 0x80 && s[2] == 0x80 then 3
    else 0
  }

  /** From one character, or one byte, to the next. */
  function StepLength(s: Bytes, kind: Kind): (n: nat)
    requires s != []
    ensures 0 < n <= |s|
  {
    if kind.Raw? || CharLength(s) == 0 then 1 else CharLength(s)
  }

  function WordLength(s: Bytes, kind: Kind): (n: nat)
    ensures n <= |s|
    ensures s != [] && SpaceLength(s, kind) == 0 ==> 0 < n
    decreases |s|
  {
    if s == [] || SpaceLength(s, kind) > 0 then 0
    else StepLength(s, kind) + WordLength(s[StepLength(s, kind)..], kind)
  }

  function Split(s: Bytes, kind: Kind): seq<Bytes>
    decreases |s|
  {
    if s == [] then []
    else if SpaceLength(s, kind) > 0 then Split(s[SpaceLength(s, kind)..], kind)
    else [s[..WordLength(s, kind)]] + Split(s[WordLength(s, kind)..], kind)
  }

  // ----- code points

  ghost predicate IsScalar(cp: int) { 0 <= cp < 0x11_0000 && !(0xD800 <= cp <= 0xDFFF) }

  /** The encoding as the standard defines it: six bits to a byte behind the first. */
  ghost function Encode(cp: int): Bytes
    requires IsScalar(cp)
  {
    if cp < 0x80 then [cp]
    else if cp < 0x800 then [0xC0 + cp / 64, 0x80 + cp % 64]
    else if cp < 0x1_0000 then [0xE0 + cp / 4096, 0x80 + cp / 64 % 64, 0x80 + cp % 64]
    else [0xF0 + cp / 0x4_0000, 0x80 + cp / 4096 % 64, 0x80 + cp / 64 % 64, 0x80 + cp % 64]
  }

  /** Whitespace as `str` has it. */
  ghost predicate IsSpaceCode(cp: int) {
    || 9 <= cp <= 13 || 28 <= cp <= 32 || cp == 0x85 || cp == 0xA0 || cp == 0x1680 || 0x2000 <= cp <= 0x200A
    || cp == 0x2028 || cp == 0x2029 || cp == 0x202F || cp == 0x205F || cp == 0x3000
  }

  /** Six bits after six bits. */
  lemma SixBits(cp: nat)
    ensures cp == cp / 64 * 64 + cp % 64 && cp / 64 == cp / 4096 * 64 + cp / 64 % 64
    ensures cp / 4096 == cp / 0x4_0000 * 64 + cp / 4096 % 64
  {
    assert cp / 64 / 64 == cp / 4096;
    assert cp / 4096 / 64 == cp / 0x4_0000;
  }

  lemma Opening(cp: int)
    requires IsScalar(cp)
    ensures 0x80 <= cp < 0x800 ==> 2 <= cp / 64 < 32
    ensures 0x800 <= cp < 0x1_0000 ==> OpensThree(0xE0 + cp / 4096, 0x80 + cp / 64 % 64)
    ensures 0x1_0000 <= cp ==> OpensFour(0xF0 + cp / 0x4_0000, 0x80 + cp / 4096 % 64)
  {
    SixBits(cp);
  }

  /** What is encoded is a character, of as many bytes. */
  lemma EncodedIsChar(cp: int, rest: Bytes)
    requires IsScalar(cp)
    ensures CharLength(Encode(cp) + rest) == |Encode(cp)|
  {
    hide OpensThree, OpensFour;
    if cp >= 0x80 {
      Opening(cp);
      LeadOf(cp);
    }
  }

  lemma LeadOf(cp: int)
    requires IsScalar(cp) && cp >= 0x80
    ensures var lead := Encode(cp)[0]; lead >= 0x80 && (0xC2 <= lead <= 0xDF <==> cp < 0x800)
    ensures OpensThree(Encode(cp)[0], Encode(cp)[1]) ==> cp < 0x1_0000
  {
  }

  lemma Tail(x: nat, d: nat)
    requires d < 64
    ensures (x * 64 + d) / 64 == x && (x * 64 + d) % 64 == d
  {
  }

  lemma ThreeBytes(a: nat, b: nat, c: nat) returns (cp: nat)
    requires b < 64 && c < 64
    ensures cp / 4096 == a && cp / 64 % 64 == b && cp % 64 == c && cp == a * 4096 + b * 64 + c
  {
    cp := (a * 64 + b) * 64 + c;
    Tail(a * 64 + b, c);
    Tail(a, b);
    SixBits(cp);
  }

  lemma FourBytes(a: nat, b: nat, c: nat, d: nat) returns (cp: nat)
    requires b < 64 && c < 64 && d < 64
    ensures cp / 0x4_0000 == a && cp / 4096 % 64 == b && cp / 64 % 64 == c && cp % 64 == d
    ensures cp == a * 0x4_0000 + b * 4096 + c * 64 + d
  {
    var front := ThreeBytes(a, b, c);
    cp := front * 64 + d;
    Tail(front, d);
    assert cp / 4096 == front / 64 && cp / 0x4_0000 == front / 4096;
  }

  lemma JoinTwo(a: Byte, b: Byte) returns (cp: int)
    requires 0xC2 <= a <= 0xDF && IsTail(b)
    ensures IsScalar(cp) && Encode(cp) == [a, b]
  {
    var x: int, y: int := a, b;
    cp := (x - 0xC0) * 64 + (y - 0x80);
    Tail(x - 0xC0, y - 0x80);
  }

  lemma JoinThree(a: Byte, b: Byte, c: Byte) returns (cp: int)
    requires OpensThree(a, b) && IsTail(c)
    ensures IsScalar(cp) && Encode(cp) == [a, b, c]
  {
    var x: int, y: int, z: int := a, b, c;
    cp := ThreeBytes(x - 0xE0, y - 0x80, z - 0x80);
  }

  lemma JoinFour(a: Byte, b: Byte, c: Byte, d: Byte) returns (cp: int)
    requires OpensFour(a, b) && IsTail(c) && IsTail(d)
    ensures IsScalar(cp) && Encode(cp) == [a, b, c, d]
  {
    var x: int, y: int, z: int, w: int := a, b, c, d;
    cp := FourBytes(x - 0xF0, y - 0x80, z - 0x80, w - 0x80);
  }

  /** And every character is an encoding. */
  lemma CharIsEncoded(s: Bytes) returns (cp: int)
    requires CharLength(s) > 0
    ensures IsScalar(cp) && s[..CharLength(s)] == Encode(cp)
  {
    hide OpensThree, OpensFour, IsTail;
    var n := CharLength(s);
    if n == 1 {
      cp := s[0];
    } else if n == 2 {
      cp := JoinTwo(s[0], s[1]);
    } else if n == 3 {
      cp := JoinThree(s[0], s[1], s[2]);
    } else {
      cp := JoinFour(s[0], s[1], s[2], s[3]);
    }
  }

  /** The whitespace characters are those of `str`. */
  lemma SpacesAreSpaces(cp: int, rest: Bytes)
    requires IsScalar(cp)
    ensures SpaceLength(Encode(cp) + rest, Text) == if IsSpaceCode(cp) then |Encode(cp)| else 0
  {
    if 0x800 <= cp < 0x1_0000 {
      ThreeByteSpace(cp, cp / 4096, cp / 64 % 64, cp % 64);
    }
  }

  lemma ThreeByteSpace(cp: nat, a: nat, b: nat, c: nat)
    requires a == cp / 4096 && b == cp / 64 % 64 && c == cp % 64
    ensures cp == a * 4096 + b * 64 + c && b < 64 && c < 64
  {
    SixBits(cp);
  }

  /** For bytes they are tab to carriage return, and the space. */
  lemma RawSpaces(s: Bytes)
    ensures SpaceLength(s, Raw) == if s != [] && s[0] in {9, 10, 11, 12, 13, 32} then 1 else 0
  {
  }

  // ----- one character after another

  /** No whitespace; and text throughout, if it is meant to be text. */
  ghost predicate IsPlain(w: Bytes, kind: Kind)
    decreases |w|
  {
    w == [] ||
    (SpaceLength(w, kind) == 0 && (kind.Text? ==> CharLength(w) > 0) && IsPlain(w[StepLength(w, kind)..], kind))
  }

  ghost predicate IsWord(w: Bytes, kind: Kind) {
    w != [] && IsPlain(w, kind)
  }

  lemma CharOfMore(s: Bytes, rest: Bytes)
    requires CharLength(s) > 0
    ensures CharLength(s + rest) == CharLength(s)
  {
  }

  lemma CharOfLess(s: Bytes, n: nat)
    requires n <= |s| && CharLength(s[..n]) > 0
    ensures CharLength(s) == CharLength(s[..n])
  {
    assert s == s[..n] + s[n..];
    CharOfMore(s[..n], s[n..]);
  }

  /** A first character, or byte, that is no whitespace does not become so by what follows it. */
  lemma StepOfMore(w: Bytes, rest: Bytes, kind: Kind)
    requires w != [] && (kind.Text? ==> CharLength(w) > 0)
    ensures SpaceLength(w, kind) == 0 <==> SpaceLength(w + rest, kind) == 0
    ensures StepLength(w + rest, kind) == StepLength(w, kind)
  {
    if kind.Text? {
      CharOfMore(w, rest);
    }
  }

  lemma {:induction false} PlainIsDecodable(w: Bytes)
    requires IsPlain(w, Text)
    ensures Decodable(w)
    decreases |w|
  {
    if w != [] {
      PlainIsDecodable(w[CharLength(w)..]);
    }
  }

  lemma {:induction false} DecodableConcat(a: Bytes, b: Bytes)
    requires Decodable(a)
    ensures Decodable(a + b) <==> Decodable(b)
    decreases |a|
  {
    if a == [] {
      assert a + b == b;
    } else {
      var n := CharLength(a);
      CharOfMore(a, b);
      assert (a + b)[n..] == a[n..] + b;
      DecodableConcat(a[n..], b);
    }
  }

  lemma {:induction false} DecodableThenAscii(a: Bytes, c: Byte)
    requires c < 0x80
    ensures Decodable(a + [c]) <==> Decodable(a)
    decreases |a|
  {
    if a == [] {
      assert a + [c] == [c] && [c][1..] == [];
    } else {
      CharBeforeAscii(a, c);
      var n := CharLength(a);
      if n > 0 {
        assert (a + [c])[n..] == a[n..] + [c];
        DecodableThenAscii(a[n..], c);
      }
    }
  }

  lemma CharBeforeAscii(a: Bytes, c: Byte)
    requires a != [] && c < 0x80
    ensures CharLength(a + [c]) == CharLength(a)
  {
  }

  lemma {:induction false} AsciiIsDecodable(s: Bytes)
    requires forall c | c in s :: c < 0x80
    ensures Decodable(s)
  {
    if s != [] {
      assert s[0] in s && forall c | c in s[1..] :: c in s;
      AsciiIsDecodable(s[1..]);
    }
  }

  lemma {:induction false} AsciiIsPlain(s: Bytes, kind: Kind)
    requires forall c | c in s :: c < 0x80 && !IsSpace(c, Text)
    ensures IsPlain(s, kind)
  {
    if s != [] {
      assert s[0] in s && forall c | c in s[1..] :: c in s;
      assert StepLength(s, kind) == 1 && SpaceLength(s, kind) == 0;
      AsciiIsPlain(s[1..], kind);
    }
  }

  /** No control character or space hides inside a character. */
  lemma {:induction false} PlainHasNoSpace(w: Bytes, kind: Kind)
    requires IsPlain(w, kind)
    ensures forall c | c in w :: !IsSpace(c, kind)
    decreases |w|
  {
    if w != [] {
      var n := StepLength(w, kind);
      PlainHasNoSpace(w[n..], kind);
      assert w == w[..n] + w[n..];
      assert forall i | 0 < i < n :: w[i] >= 0x80;
    }
  }

  /** A beginning that ends between two characters is plain, too. */
  lemma {:induction false} PlainBeginning(w: Bytes, n: nat)
    requires IsPlain(w, Text) && n <= |w| && Decodable(w[..n])
    ensures IsPlain(w[..n], Text)
    decreases n
  {
    hide CharLength, SpaceLength;
    if n > 0 {
      var m := CharLength(w[..n]);
      CharOfLess(w, n);
      StepOfMore(w[..n], w[n..], Text);
      assert w == w[..n] + w[n..];
      assert w[..n][m..] == w[m..][..n - m];
      PlainBeginning(w[m..], n - m);
    }
  }

  // ----- splitting

  lemma {:induction false} WordLengthOf(w: Bytes, rest: Bytes, kind: Kind)
    requires IsPlain(w, kind) && (rest == [] || IsSpace(rest[0], kind))
    ensures WordLength(w + rest, kind) == |w|
    decreases |w|
  {
    if w == [] {
      assert w + rest == rest;
    } else {
      var n := StepLength(w, kind);
      StepOfMore(w, rest, kind);
      assert (w + rest)[n..] == w[n..] + rest;
      WordLengthOf(w[n..], rest, kind);
    }
  }

  lemma SplitWord(w: Bytes, rest: Bytes, kind: Kind)
    requires IsWord(w, kind) && (rest == [] || IsSpace(rest[0], kind))
    ensures Split(w + rest, kind) == [w] + Split(rest, kind)
  {
    WordLengthOf(w, rest, kind);
    StepOfMore(w, rest, kind);
    assert (w + rest)[..|w|] == w && (w + rest)[|w|..] == rest;
  }

  lemma SplitSpace(rest: Bytes, kind: Kind)
    ensures Split([SPACE] + rest, kind) == Split(rest, kind)
  {
    assert SpaceLength([SPACE] + rest, kind) == 1;
    assert ([SPACE] + rest)[1..] == rest;
  }

  lemma SplitOne(a: Bytes, kind: Kind)
    requires IsWord(a, kind)
    ensures Split(a, kind) == [a] && Split(a + [SPACE], kind) == [a]
  {
    hide IsWord, SpaceLength, WordLength;
    SplitWord(a, [], kind);
    SplitWord(a, [SPACE], kind);
    SplitSpace([], kind);
    assert a + [] == a && [SPACE] + [] == [SPACE];
  }

  lemma SplitNext(a: Bytes, rest: Bytes, kind: Kind)
    requires IsWord(a, kind)
    ensures Split(a + ([SPACE] + rest), kind) == [a] + Split(rest, kind)
  {
    hide IsWord, Split;
    SplitWord(a, [SPACE] + rest, kind);
    SplitSpace(rest, kind);
  }

  /** Two words, then perhaps a third. */
  lemma SplitFields(a: Bytes, b: Bytes, c: Bytes, kind: Kind)
    requires IsWord(a, kind) && IsWord(b, kind) && (c == [] || IsWord(c, kind))
    ensures Split(a + [SPACE] + b, kind) == [a, b]
    ensures Split(a + [SPACE] + b + [SPACE] + c, kind) == if c == [] then [a, b] else [a, b, c]
  {
    hide Split, IsWord;
    SplitOne(b, kind);
    SplitNext(a, b, kind);
    assert a + [SPACE] + b == a + ([SPACE] + b);
    var tail := b + ([SPACE] + c);
    if c != [] {
      SplitOne(c, kind);
      SplitNext(b, c, kind);
    } else {
      assert tail == b + [SPACE];
    }
    SplitNext(a, tail, kind);
    assert a + [SPACE] + b + [SPACE] + c == a + ([SPACE] + tail);
  }

  /** The next word of a text is plain, and what follows it is again a text. */
  lemma {:induction false} NextWord(s: Bytes)
    requires Decodable(s)
    ensures var n := WordLength(s, Text); IsPlain(s[..n], Text) && Decodable(s[n..])
    decreases |s|
  {
    hide CharLength, SpaceLength;
    var n := WordLength(s, Text);
    if s == [] || SpaceLength(s, Text) > 0 {
      assert s[..n] == [] && s[n..] == s;
    } else {
      var m := CharLength(s);
      NextWord(s[m..]);
      var w := s[..n];
      assert w[m..] == s[m..][..n - m] && s[n..] == s[m..][n - m..];
      FirstChar(s, n);
    }
  }

  lemma FirstChar(s: Bytes, n: nat)
    requires 0 < CharLength(s) <= n <= |s|
    ensures CharLength(s[..n]) == CharLength(s)
    ensures SpaceLength(s, Text) == 0 ==> SpaceLength(s[..n], Text) == 0
  {
  }

  /** A text splits into words. */
  lemma {:induction false} SplitIntoWords(s: Bytes)
    requires Decodable(s)
    ensures forall w | w in Split(s, Text) :: IsWord(w, Text)
    decreases |s|
  {
    if s != [] {
      var n := SpaceLength(s, Text);
      if n > 0 {
        SpaceIsChar(s);
        SplitIntoWords(s[n..]);
      } else {
        NextWord(s);
        SplitIntoWords(s[WordLength(s, Text)..]);
      }
    }
  }

  lemma SpaceIsChar(s: Bytes)
    requires SpaceLength(s, Text) > 0
    ensures CharLength(s) == SpaceLength(s, Text)
  {
  }
}
