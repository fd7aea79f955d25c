/** yandextank/stepper/format.py: the printer and the reader of the stpd format, a sequence of entries
    "<size> <timestamp> <marker>\n<missile>\n". */
module Stpd {
  import opened Common
  import opened Words

  const LF: Byte := 10
  const CR: Byte := 13
  const MINUS: Byte := 45
  const PLUS: Byte := 43
  const ZERO: Byte := 48
  const UNDERSCORE: Byte := 95

  // ----- the printer

  function Digits(n: nat): (s: Bytes)
    ensures s != [] && forall c | c in s :: IsDigit(c)
  {
    if n < 10 then [ZERO + n] else Digits(n / 10) + [ZERO + n % 10]
  }

  predicate IsDigit(c: Byte) { ZERO <= c <= ZERO + 9 }

  /** `str(n)` */
  function Str(n: int): (s: Bytes)
    ensures s != [] && forall c | c in s :: IsDigit(c) || c == MINUS
  {
    if n < 0 then [MINUS] + Digits(-n) else Digits(n)
  }

  function Header(t: Task): Bytes {
    Str(|t.missile|) + [SPACE] + Str(t.timestamp) + [SPACE] + t.marker
  }

  function Entry(t: Task): Bytes {
    Header(t) + [LF] + t.missile + [LF]
  }

  function Written(tasks: seq<Task>): Bytes {
    if tasks == [] then [] else Entry(tasks[0]) + Written(tasks[1..])
  }

  // ----- the reader, on the bytes still ahead of the cursor

  /** Length of the next line, its line feed included. */
  function LineLength(rest: Bytes): (n: nat)
    ensures n <= |rest| && (rest != [] ==> 0 < n)
  {
    if rest == [] then 0 else if rest[0] == LF then 1 else 1 + LineLength(rest[1..])
  }

  predicate IsNewline(c: Byte) { c == LF || c == CR }

  /** `line.strip('\r\n')` */
  function Strip(line: Bytes): Bytes
    decreases |line|
  {
    if line != [] && IsNewline(line[0]) then Strip(line[1..])
    else if line != [] && IsNewline(line[|line| - 1]) then Strip(line[..|line| - 1])
    else line
  }

  /** The next header that is not blank, empty at the end of the file; and what follows its line. */
  function ReadHeader(rest: Bytes): (r: (Bytes, Bytes))
    ensures |r.1| <= |rest| && (r.0 != [] ==> |r.1| < |rest|)
    decreases |rest|
  {
    if rest == [] then ([], [])
    else
      var n := LineLength(rest);
      var header := Strip(rest[..n]);
      if header == [] then ReadHeader(rest[n..]) else (header, rest[n..])
  }

  /** Digits with single underscores between them. */
  function ParseDigits(s: Bytes): Option<nat>
    decreases |s|
  {
    if s == [] || !IsDigit(s[|s| - 1]) then None
    else
      var last := s[|s| - 1] - ZERO;
      if |s| == 1 then Some(last)
      else
        var front := s[..|s| - 1];
        var value := ParseDigits(if front[|front| - 1] == UNDERSCORE then front[..|front| - 1] else front);
        if value.None? then None else Some(10 * value.value + last)
  }

  /** `int(field)` for a field without whitespace, its digits being those of ASCII; None is the ValueError. */
  function ParseInt(field: Bytes): Option<int> {
    if field == [] then None
    else if field[0] == MINUS then Signed(-1, ParseDigits(field[1..]))
    else if field[0] == PLUS then Signed(1, ParseDigits(field[1..]))
    else Signed(1, ParseDigits(field))
  }

  function Signed(sign: int, magnitude: Option<nat>): Option<int> {
    if magnitude.None? then None else Some(sign * magnitude.value)
  }

  datatype Fields = Fields(size: int, timestamp: int, marker: Bytes)

  /** None is the IndexError or ValueError of a bad header. */
  function ParseHeader(header: Bytes): Option<Fields> {
    var fields := Split(header, Text);
    if |fields| < 2 then None
    else
      var size, timestamp := ParseInt(fields[0]), ParseInt(fields[1]);
      if size.None? || timestamp.None? then None
      else Some(Fields(size.value, timestamp.value, if |fields| > 2 then fields[2] else []))
  }

  /** `ammo_file.read(size)`: a negative size reads to the end. */
  function Take(rest: Bytes, size: int): Bytes {
    if size < 0 || size > |rest| then rest else rest[..size]
  }

  /** The end of the file, StpdFileError, or UnicodeDecodeError. */
  datatype Ending = Complete | Damaged | NotText

  /** The tasks yielded, and how the reader stopped. Markers are strings, here in UTF-8. */
  datatype Reading = Reading(tasks: seq<Task>, ending: Ending)

  function ReadAll(rest: Bytes): Reading
    decreases |rest|
  {
    var (header, body) := ReadHeader(rest);
    if header == [] then Reading([], Complete)
    else if !Decodable(header) then Reading([], NotText)
    else
      var fields := ParseHeader(header);
      if fields.None? then Reading([], Damaged)
      else
        var missile := Take(body, fields.value.size);
        if |missile| < fields.value.size then Reading([], Damaged)
        else
          var more := ReadAll(body[|missile|..]);
          Reading([Task(fields.value.timestamp, missile, fields.value.marker)] + more.tasks, more.ending)
  }

  // ----- numbers

  lemma {:induction false} ParseOfDigits(n: nat)
    ensures ParseDigits(Digits(n)) == Some(n)
  {
    if n >= 10 {
      ParseOfDigits(n / 10);
      var s := Digits(n);
      assert s[..|s| - 1] == Digits(n / 10);
      assert s[|s| - 2] in Digits(n / 10);
    }
  }

  lemma ParseOfStr(n: int)
    ensures ParseInt(Str(n)) == Some(n)
  {
    ParseOfDigits(if n < 0 then -n else n);
    assert Str(n)[0] in Str(n);
    if n < 0 {
      assert Str(n)[1..] == Digits(-n);
    } else {
      assert Digits(n)[0] in Digits(n);
    }
  }

  // ----- words and headers

  lemma StrIsAscii(n: int)
    ensures forall c | c in Str(n) :: c < 0x80 && !IsSpace(c, Text)
  {
  }

  lemma StrIsWord(n: int, kind: Kind)
    ensures IsWord(Str(n), kind)
  {
    StrIsAscii(n);
    AsciiIsPlain(Str(n), kind);
  }

  /** The part of a header before its marker is text. */
  lemma NumbersDecodable(size: int, timestamp: int)
    ensures Decodable(Str(size) + [SPACE] + Str(timestamp) + [SPACE])
  {
    StrIsAscii(size);
    StrIsAscii(timestamp);
    AsciiIsDecodable(Str(size) + [SPACE] + Str(timestamp) + [SPACE]);
  }

  /** Markers that keep: text without whitespace. */
  ghost predicate IsMarker(marker: Bytes) {
    IsPlain(marker, Text)
  }

  ghost predicate NoNewline(s: Bytes) {
    forall c | c in s :: !IsNewline(c)
  }

  lemma HeaderFields(t: Task)
    requires IsMarker(t.marker)
    ensures NoNewline(Header(t)) && Header(t) != [] && Decodable(Header(t))
    ensures ParseHeader(Header(t)) == Some(Fields(|t.missile|, t.timestamp, t.marker))
  {
    hide Str, Split, ParseInt, IsPlain, Decodable;
    StrIsAscii(|t.missile|);
    StrIsAscii(t.timestamp);
    StrIsWord(|t.missile|, Text);
    StrIsWord(t.timestamp, Text);
    PlainHasNoSpace(t.marker, Text);
    SplitFields(Str(|t.missile|), Str(t.timestamp), t.marker, Text);
    ParseOfStr(|t.missile|);
    ParseOfStr(t.timestamp);
    NumbersDecodable(|t.missile|, t.timestamp);
    PlainIsDecodable(t.marker);
    DecodableConcat(Str(|t.missile|) + [SPACE] + Str(t.timestamp) + [SPACE], t.marker);
  }

  lemma {:induction false} LineLengthOf(s: Bytes, rest: Bytes)
    requires NoNewline(s)
    ensures LineLength(s + [LF] + rest) == |s| + 1
    ensures LineLength(s) == |s|
  {
    if s == [] {
      assert s + [LF] + rest == [LF] + rest;
    } else {
      assert s[0] in s;
      assert (s + [LF] + rest)[1..] == s[1..] + [LF] + rest;
      LineLengthOf(s[1..], rest);
    }
  }

  lemma ReadHeaderOf(s: Bytes, rest: Bytes)
    requires NoNewline(s) && s != []
    ensures ReadHeader(s + [LF] + rest) == (s, rest)
    ensures ReadHeader(s) == (s, [])
  {
    LineLengthOf(s, rest);
    var whole := s + [LF] + rest;
    assert whole[..|s| + 1] == s + [LF] && whole[|s| + 1..] == rest;
    assert s[0] in s && s[|s| - 1] in s;
    assert (s + [LF])[..|s|] == s;
    assert Strip(s + [LF]) == s;
    assert s[..|s|] == s && s[|s|..] == [];
  }

  /** A blank line is skipped. */
  lemma SkipBlank(rest: Bytes)
    ensures ReadHeader([LF] + rest) == ReadHeader(rest) && ReadAll([LF] + rest) == ReadAll(rest)
  {
    var whole := [LF] + rest;
    assert whole[..1] == [LF] && whole[1..] == rest;
    assert Strip([LF]) == [] by {
      assert [LF][1..] == [];
    }
  }

  lemma ReadNothing()
    ensures ReadAll([]) == Reading([], Complete)
  {
  }

  // ----- round trip

  /** An entry up to its missile, followed by anything: its task, then the rest. */
  lemma ReadEntry(t: Task, rest: Bytes)
    requires IsMarker(t.marker)
    ensures var more := ReadAll(rest);
            ReadAll(Header(t) + [LF] + (t.missile + rest)) == Reading([t] + more.tasks, more.ending)
  {
    HeaderFields(t);
    ReadHeaderOf(Header(t), t.missile + rest);
    assert (t.missile + rest)[..|t.missile|] == t.missile && (t.missile + rest)[|t.missile|..] == rest;
  }

  lemma WrittenFirst(tasks: seq<Task>)
    ensures tasks == [] ==> Written(tasks) == []
    ensures tasks != [] ==>
      Written(tasks) == Header(tasks[0]) + [LF] + (tasks[0].missile + ([LF] + Written(tasks[1..])))
  {
    hide Header;
  }

  /** Reading what was written gives back the tasks, whatever bytes the missiles hold. */
  lemma {:induction false} RoundTrip(tasks: seq<Task>)
    requires forall t | t in tasks :: IsMarker(t.marker)
    ensures ReadAll(Written(tasks)) == Reading(tasks, Complete)
  {
    hide ReadAll, Header, Written;
    WrittenFirst(tasks);
    if tasks == [] {
      ReadNothing();
    } else {
      var t, rest := tasks[0], tasks[1..];
      RoundTrip(rest);
      SkipBlank(Written(rest));
      ReadEntry(t, [LF] + Written(rest));
      assert tasks == [t] + rest;
    }
  }

  /** The reader yields no other markers. */
  lemma {:induction false} MarkersRead(rest: Bytes)
    ensures forall t | t in ReadAll(rest).tasks :: IsMarker(t.marker)
    decreases |rest|
  {
    hide ReadHeader, Split, Decodable, IsPlain, Take;
    var (header, body) := ReadHeader(rest);
    if header != [] && Decodable(header) && ParseHeader(header).Some? {
      var fields := ParseHeader(header).value;
      var missile := Take(body, fields.size);
      SplitIntoWords(header);
      NothingIsText();
      assert |Split(header, Text)| > 2 ==> Split(header, Text)[2] in Split(header, Text);
      if |missile| >= fields.size {
        TakesFrom(body, fields.size);
        MarkersRead(body[|missile|..]);
      }
    }
  }

  lemma NothingIsText()
    ensures IsPlain([], Text) && Decodable([])
  {
  }

  lemma TakesFrom(body: Bytes, size: int)
    ensures |Take(body, size)| <= |body|
  {
  }

  // ----- in bytes

  /** "2 1500 m", "ab": a shot of two bytes after a second and a half, under the marker m. */
  lemma OneEntry()
    ensures var t := Task(1500, [97, 98], [109]);
            Written([t]) == [50, 32, 49, 53, 48, 48, 32, 109, 10, 97, 98, 10]
            && ReadAll([50, 32, 49, 53, 48, 48, 32, 109, 10, 97, 98, 10]) == Reading([t], Complete)
  {
    var t := Task(1500, [97, 98], [109]);
    assert Digits(2) == [50] && Digits(1) == [49];
    assert Digits(15) == [49, 53] && Digits(150) == [49, 53, 48] && Digits(1500) == [49, 53, 48, 48];
    assert Header(t) == [50, 32, 49, 53, 48, 48, 32, 109];
    assert Entry(t) == [50, 32, 49, 53, 48, 48, 32, 109, 10, 97, 98, 10];
    assert [t][1..] == [] && Written([t]) == Entry(t) + [];
    assert IsPlain([109][1..], Text);
    RoundTrip([t]);
  }

  /** Signs, and single underscores between the digits; nothing else. */
  lemma NumbersRead()
    ensures ParseInt([49, 95, 48]) == Some(10) && ParseInt([43, 53]) == Some(5) && ParseInt([45, 53]) == Some(-5)
    ensures ParseInt([95, 53]) == ParseInt([53, 95]) == ParseInt([53, 95, 95, 53]) == ParseInt([]) == None
    ensures ParseInt([45]) == ParseInt([45, 45, 53]) == ParseInt([49, 46, 53]) == None
    ensures ParseInt([48]) == Some(0) && ParseInt([57]) == Some(9) && ParseInt([47]) == ParseInt([58]) == None
    ensures Str(0) == [48] && Str(9) == [57] && Str(-12) == [45, 49, 50]
  {
    assert Digits(1) == [49] && Digits(12) == [49, 50];
    assert ParseDigits([49]) == Some(1) && ParseDigits([53]) == Some(5);
    assert [49, 95, 48][..2] == [49, 95] && [49, 95][..1] == [49];
    assert [95, 53][..1] == [95] && [95][..0] == [];
    assert [53, 95, 95, 53][..3] == [53, 95, 95] && [53, 95, 95][..2] == [53, 95];
    assert [43, 53][1..] == [53] == [45, 53][1..] && [45, 45, 53][1..] == [45, 53] && [45, 53][..1] == [45];
    assert [49, 46, 53][..2] == [49, 46];
  }

  lemma CarriageReturnIsBlank(rest: Bytes)
    ensures ReadHeader([CR, LF] + rest) == ReadHeader(rest)
  {
    var whole := [CR, LF] + rest;
    assert whole[1..] == [LF] + rest;
    assert LineLength(whole) == 2;
    assert whole[..2] == [CR, LF] && whole[2..] == rest;
    assert [CR, LF][1..] == [LF] && [LF][1..] == [];
    assert Strip([]) == [];
    assert Strip([LF]) == [];
    assert Strip([CR, LF]) == [];
  }

  lemma NegativeHeader()
    ensures var header: Bytes := [45, 49, 32, 55, 32, 109];
            ParseHeader(header) == Some(Fields(-1, 7, [109])) && Decodable(header) && NoNewline(header)
  {
    hide Split, Decodable, IsPlain;
    var size, ts, marker: Bytes := [45, 49], [55], [109];
    assert [45, 49, 32, 55, 32, 109] == size + [SPACE] + ts + [SPACE] + marker;
    AsciiIsPlain(size, Text);
    AsciiIsPlain(ts, Text);
    AsciiIsPlain(marker, Text);
    AsciiIsDecodable([45, 49, 32, 55, 32, 109]);
    SplitFields(size, ts, marker, Text);
    assert size[1..] == [49] && ParseDigits([49]) == Some(1) && ParseDigits([55]) == Some(7);
  }

  /** "-1 7 m": a missile of negative size is the rest of the file. */
  lemma NegativeSize(rest: Bytes)
    ensures ReadAll([45, 49, 32, 55, 32, 109] + [LF] + rest) == Reading([Task(7, rest, [109])], Complete)
  {
    hide ParseHeader, Decodable, ReadHeader, ReadAll, NoNewline;
    var header: Bytes := [45, 49, 32, 55, 32, 109];
    NegativeHeader();
    ReadHeaderOf(header, rest);
    ReadNothing();
    ReadTask(header + [LF] + rest, header, rest, Fields(-1, 7, [109]), rest);
    assert rest[|rest|..] == [];
  }

  /** Exactly the markers that are text without whitespace come back. */
  lemma RoundTripIff(tasks: seq<Task>)
    ensures ReadAll(Written(tasks)) == Reading(tasks, Complete) <==> forall t | t in tasks :: IsMarker(t.marker)
  {
    hide ReadAll, Written, IsMarker;
    MarkersRead(Written(tasks));
    if forall t | t in tasks :: IsMarker(t.marker) {
      RoundTrip(tasks);
    }
  }

  // ----- truncated files

  /** Nothing but a header, without its line feed: a missile is expected at the end of the file. */
  lemma ReadBareHeader(h: Bytes)
    requires NoNewline(h) && h != []
    ensures var fields := ParseHeader(h);
            ReadAll(h) == if !Decodable(h) then Reading([], NotText)
                          else if fields.None? || fields.value.size > 0 then Reading([], Damaged)
                          else Reading([Task(fields.value.timestamp, [], fields.value.marker)], Complete)
  {
    ReadHeaderOf(h, []);
    ReadNothing();
  }

  /** What a header cut short can still say: the true size, and the true timestamp with a beginning of the marker,
      or a beginning of the timestamp. */
  ghost predicate CutReading(t: Task, fields: Fields) {
    && fields.size == |t.missile|
    && (fields.timestamp == t.timestamp ||
        (fields.marker == [] &&
         exists j :: 0 < j < |Str(t.timestamp)| && ParseInt(Str(t.timestamp)[..j]) == Some(fields.timestamp)))
    && fields.marker <= t.marker
  }

  /** Three words with spaces between them, cut after k bytes. */
  lemma CutWords(a: Bytes, b: Bytes, c: Bytes, k: nat)
    requires k <= |a| + |b| + |c| + 2
    ensures var cut := (a + [SPACE] + b + [SPACE] + c)[..k];
            if k <= |a| then cut == a[..k]
            else if k == |a| + 1 then cut == a + [SPACE]
            else if k <= |a| + 1 + |b| then cut == a + [SPACE] + b[..k - |a| - 1]
            else cut == a + [SPACE] + b + [SPACE] + c[..k - |a| - |b| - 2]
  {
  }

  lemma StrPart(n: int, k: nat)
    requires 0 < k <= |Str(n)|
    ensures IsWord(Str(n)[..k], Text)
  {
    StrIsAscii(n);
    assert forall c | c in Str(n)[..k] :: c in Str(n);
    AsciiIsPlain(Str(n)[..k], Text);
  }

  lemma CutMarker(t: Task, j: nat)
    requires IsMarker(t.marker) && j <= |t.marker|
    requires Decodable(Str(|t.missile|) + [SPACE] + Str(t.timestamp) + [SPACE] + t.marker[..j])
    ensures IsPlain(t.marker[..j], Text)
  {
    hide Str, Decodable, IsPlain;
    NumbersDecodable(|t.missile|, t.timestamp);
    DecodableConcat(Str(|t.missile|) + [SPACE] + Str(t.timestamp) + [SPACE], t.marker[..j]);
    PlainBeginning(t.marker, j);
  }

  /** A cut inside a character leaves no text at all. */
  lemma CutHeader(t: Task, k: nat)
    requires IsMarker(t.marker) && 0 < k <= |Header(t)|
    ensures NoNewline(Header(t)[..k])
    ensures var fields := ParseHeader(Header(t)[..k]);
            Decodable(Header(t)[..k]) && fields.Some? ==> CutReading(t, fields.value)
  {
    hide Str, Split, ParseInt, Decodable, IsPlain;
    var size, ts, marker := Str(|t.missile|), Str(t.timestamp), t.marker;
    HeaderFields(t);
    CutWords(size, ts, marker, k);
    StrIsWord(|t.missile|, Text);
    StrIsWord(t.timestamp, Text);
    ParseOfStr(|t.missile|);
    ParseOfStr(t.timestamp);
    if k <= |size| {
      StrPart(|t.missile|, k);
      SplitOne(size[..k], Text);
    } else if k == |size| + 1 {
      SplitOne(size, Text);
    } else if k <= |size| + 1 + |ts| {
      var part := ts[..k - |size| - 1];
      assert |part| == |ts| ==> part == ts;
      StrPart(t.timestamp, |part|);
      SplitFields(size, part, [], Text);
    } else if Decodable(Header(t)[..k]) {
      CutMarker(t, k - |size| - |ts| - 2);
      SplitFields(size, ts, marker[..k - |size| - |ts| - 2], Text);
    }
  }

  /** A file cut anywhere never makes the reader yield a wrong task for this one. */
  ghost predicate Robust(t: Task) {
    t.missile != [] || (t.marker == [] && -10 < t.timestamp < 10)
  }

  lemma OneDigit(n: int, j: nat)
    requires -10 < n < 10 && 0 < j < |Str(n)|
    ensures ParseInt(Str(n)[..j]).None?
  {
    assert Str(n)[..1] == [MINUS];
  }

  lemma CutHeaderIsSafe(t: Task, k: nat)
    requires IsMarker(t.marker) && k <= |Header(t)| && Robust(t)
    ensures ReadAll(Header(t)[..k]).tasks <= [t]
  {
    hide Header, Str, ParseHeader, ReadAll, Decodable, IsPlain, ParseInt;
    if k == 0 {
      ReadNothing();
    } else {
      var cut := Header(t)[..k];
      CutHeader(t, k);
      ReadBareHeader(cut);
      var fields := ParseHeader(cut);
      if Decodable(cut) && fields.Some? && t.missile == [] {
        var f := fields.value;
        assert CutReading(t, f);
        if f.timestamp != t.timestamp {
          var j :| 0 < j < |Str(t.timestamp)| && ParseInt(Str(t.timestamp)[..j]) == Some(f.timestamp);
          OneDigit(t.timestamp, j);
          assert false;
        }
      }
    }
  }

  lemma CutMissile(t: Task, part: Bytes)
    requires IsMarker(t.marker) && |part| < |t.missile|
    ensures ReadAll(Header(t) + [LF] + part) == Reading([], Damaged)
  {
    HeaderFields(t);
    ReadHeaderOf(Header(t), part);
  }

  /** The first k bytes of a written file, seen entry by entry. */
  lemma CutWritten(tasks: seq<Task>, k: nat)
    requires tasks != [] && k <= |Written(tasks)|
    ensures var t, h, cut := tasks[0], Header(tasks[0]), Written(tasks)[..k];
            if k <= |h| then cut == h[..k]
            else if k <= |h| + 1 + |t.missile| then cut == h + [LF] + t.missile[..k - |h| - 1]
            else |Entry(t)| <= k && cut == h + [LF] + (t.missile + ([LF] + Written(tasks[1..])[..k - |Entry(t)|]))
  {
    hide Header;
    assert Written(tasks) == Entry(tasks[0]) + Written(tasks[1..]);
  }

  // ----- markers that do not keep

  /** What stands before the marker. */
  function Numbers(t: Task): Bytes {
    Str(|t.missile|) + [SPACE] + Str(t.timestamp) + [SPACE]
  }

  /** The reader comes to its end at this task: it waits for a missile, but its header is no text. A line feed in the
      marker ends the header. */
  ghost predicate Stops(t: Task) {
    t.missile != [] && !Decodable(t.marker[..LineLength(t.marker)])
  }

  lemma {:induction false} LineAfter(a: Bytes, b: Bytes)
    requires LF !in a
    ensures LineLength(a + b) == |a| + LineLength(b)
  {
    if a == [] {
      assert a + b == b;
    } else {
      assert (a + b)[1..] == a[1..] + b;
      LineAfter(a[1..], b);
    }
  }

  /** A line goes on to the first line feed. */
  lemma {:induction false} LineOf(s: Bytes, rest: Bytes)
    ensures var n := LineLength(s);
            if LF in s then LineLength(s + rest) == n && LF in s[..n]
            else n == |s| && LineLength(s + rest) == n + LineLength(rest)
  {
    if LF in s {
      if s[0] != LF {
        assert (s + rest)[1..] == s[1..] + rest;
        LineOf(s[1..], rest);
        assert s[..LineLength(s)][1..] == s[1..][..LineLength(s[1..])];
      } else {
        assert s[..1] == [LF];
      }
    } else {
      LineAfter(s, rest);
      LineAfter(s, []);
      assert s + [] == s;
    }
  }

  lemma {:induction false} StripEnd(a: Bytes, b: Bytes) returns (c: Bytes)
    requires a != [] && !IsNewline(a[0]) && !IsNewline(a[|a| - 1])
    ensures Strip(a + b) == a + c && c <= b
    decreases |b|
  {
    c := b;
    if b == [] {
      assert a + b == a;
    } else if IsNewline(b[|b| - 1]) {
      assert (a + b)[..|a + b| - 1] == a + b[..|b| - 1];
      c := StripEnd(a, b[..|b| - 1]);
    }
  }

  lemma NumbersOpen(t: Task)
    ensures var a := Numbers(t); a != [] && LF !in a && Decodable(a) && !IsNewline(a[0]) && !IsNewline(a[|a| - 1])
    ensures Header(t) == Numbers(t) + t.marker
  {
    hide Str, Decodable;
    NumbersDecodable(|t.missile|, t.timestamp);
    StrIsAscii(|t.missile|);
    StrIsAscii(t.timestamp);
    assert Str(|t.missile|)[0] in Str(|t.missile|);
  }

  lemma NumbersParse(t: Task, rest: Bytes)
    ensures ParseHeader(Numbers(t) + rest).Some?
    ensures ParseHeader(Numbers(t) + rest).value.size == |t.missile|
  {
    hide Str, Split, ParseInt, IsPlain;
    var size, ts := Str(|t.missile|), Str(t.timestamp);
    StrIsWord(|t.missile|, Text);
    StrIsWord(t.timestamp, Text);
    SplitNext(ts, rest, Text);
    SplitNext(size, ts + ([SPACE] + rest), Text);
    ParseOfStr(|t.missile|);
    ParseOfStr(t.timestamp);
    assert Numbers(t) + rest == size + ([SPACE] + (ts + ([SPACE] + rest)));
  }

  /** The first line of a file that opens with the numbers of a task. */
  lemma FirstLine(t: Task, rest: Bytes) returns (c: Bytes)
    ensures c <= rest[..LineLength(rest)]
    ensures ReadHeader(Numbers(t) + rest) == (Numbers(t) + c, rest[LineLength(rest)..])
    ensures Decodable(Numbers(t) + c) <==> Decodable(rest[..LineLength(rest)])
  {
    hide Decodable, Strip, IsNewline, Numbers;
    var a, n := Numbers(t), LineLength(rest);
    NumbersOpen(t);
    LineAfter(a, rest);
    c := StripEnd(a, rest[..n]);
    assert (a + rest)[..|a| + n] == a + rest[..n] && (a + rest)[|a| + n..] == rest[n..];
    DecodableStrip(a + rest[..n]);
    DecodableConcat(a, rest[..n]);
  }

  /** Numbers and a part of a line: the missile is missing, if there should be one. */
  lemma NoMissile(t: Task, part: Bytes)
    requires t.missile != [] && LF !in part
    ensures ReadAll(Numbers(t) + part).tasks == []
  {
    hide Numbers, Header, Decodable, ReadHeader, ParseHeader, LineLength;
    var c := FirstLine(t, part);
    LineOf(part, []);
    NumbersParse(t, c);
    assert Numbers(t) != [] by { NumbersOpen(t); }
    if !Decodable(Numbers(t) + c) {
      ReadNoText(Numbers(t) + part);
    } else {
      ReadWrong(Numbers(t) + part);
    }
  }

  lemma CutNumbers(t: Task, k: nat)
    requires t.missile != [] && k <= |Numbers(t)|
    ensures ReadAll(Numbers(t)[..k]).tasks == []
  {
    hide Header, Str, ParseHeader, ReadAll, Decodable, IsPlain, ParseInt;
    var bare := Task(t.timestamp, t.missile, []);
    assert Header(bare) == Numbers(t) by { NumbersOpen(bare); assert Numbers(t) + [] == Numbers(t); }
    if k == 0 {
      ReadNothing();
    } else {
      NothingIsText();
      CutHeader(bare, k);
      ReadBareHeader(Header(bare)[..k]);
    }
  }

  /** Nothing is read from a file that opens with a task at which the reader stops, wherever it is cut. */
  lemma NothingPastAStop(t: Task, body: Bytes, k: nat)
    requires Stops(t) && k <= |Header(t) + [LF] + body|
    ensures ReadAll((Header(t) + [LF] + body)[..k]).tasks == []
  {
    hide Header, ReadAll, Numbers, Decodable, LineLength, ReadHeader;
    var a, tail := Numbers(t), t.marker + ([LF] + body);
    NumbersOpen(t);
    assert Header(t) + [LF] + body == a + tail;
    if k <= |a| {
      assert (a + tail)[..k] == a[..k];
      CutNumbers(t, k);
    } else {
      var part := tail[..k - |a|];
      assert (a + tail)[..k] == a + part;
      if LF !in part {
        NoMissile(t, part);
      } else {
        var c := FirstLine(t, part);
        CutLine(t.marker, [LF] + body, k - |a|);
        ReadNoText(a + part);
      }
    }
  }

  /** A beginning of a file that holds a line feed has the same first line; the line feed itself decodes. */
  lemma CutLine(marker: Bytes, more: Bytes, j: nat)
    requires more != [] && more[0] == LF && j <= |marker + more| && LF in (marker + more)[..j]
    ensures var part := (marker + more)[..j];
            Decodable(part[..LineLength(part)]) <==> Decodable(marker[..LineLength(marker)])
  {
    hide Decodable;
    var part, rest := (marker + more)[..j], (marker + more)[j..];
    assert part + rest == marker + more;
    LineOf(part, rest);
    LineOf(marker, more);
    var n := LineLength(marker + more);
    assert part[..n] == (marker + more)[..n];
    if LF in marker {
      assert (marker + more)[..n] == marker[..n];
    } else {
      assert n == |marker| + 1 && (marker + more)[..n] == marker + [LF] && marker[..|marker|] == marker;
      DecodableThenAscii(marker, LF);
    }
  }

  /** A header that is text gives some task, whatever the marker. */
  lemma SomeTask(t: Task, more: Bytes)
    requires Decodable(t.marker[..LineLength(t.marker)])
    ensures ReadAll(Header(t) + [LF] + (t.missile + more)).tasks != []
  {
    hide Header, ReadAll, Numbers, Decodable, LineLength, ReadHeader, ParseHeader;
    var a, body := Numbers(t), [LF] + (t.missile + more);
    var whole := t.marker + body;
    NumbersOpen(t);
    assert Header(t) + [LF] + (t.missile + more) == a + whole;
    var c := FirstLine(t, whole);
    assert whole[..|whole|] == whole && whole[|t.marker|] == LF;
    CutLine(t.marker, body, |whole|);
    NumbersParse(t, c);
    LineOf(t.marker, body);
    LineOf([LF], t.missile + more);
    LineOfFeed();
    var n := LineLength(whole);
    assert |whole[n..]| >= |t.missile|;
    ReadTask(a + whole, a + c, whole[n..], ParseHeader(a + c).value, Take(whole[n..], |t.missile|));
  }

  lemma LineOfFeed()
    ensures LineLength([LF]) == 1
  {
  }

  /** Wherever the file is cut, nothing wrong is read: up to the first task at which the reader stops, if there is one,
      every task is robust and its marker keeps. */
  ghost predicate Safe(tasks: seq<Task>) {
    tasks == [] || Stops(tasks[0]) || (IsMarker(tasks[0].marker) && Robust(tasks[0]) && Safe(tasks[1..]))
  }

  lemma {:induction false} SafeIfRobust(tasks: seq<Task>)
    requires forall t | t in tasks :: IsMarker(t.marker)
    ensures Safe(tasks) <==> forall t | t in tasks :: Robust(t)
  {
    hide Robust, Decodable, LineLength, IsPlain;
    if tasks != [] {
      var t := tasks[0];
      SafeIfRobust(tasks[1..]);
      assert tasks == [t] + tasks[1..];
      PlainIsDecodable(t.marker);
      PlainHasNoSpace(t.marker, Text);
      LineOf(t.marker, []);
      assert t.marker[..|t.marker|] == t.marker;
    }
  }

  lemma {:induction false} RobustIsSafe(tasks: seq<Task>, k: nat)
    requires Safe(tasks) && k <= |Written(tasks)|
    ensures ReadAll(Written(tasks)[..k]).tasks <= tasks
  {
    hide Header, ReadAll, Written, Robust, IsMarker, Stops;
    WrittenFirst(tasks);
    if tasks == [] {
      ReadNothing();
    } else if Stops(tasks[0]) {
      NothingPastAStop(tasks[0], tasks[0].missile + ([LF] + Written(tasks[1..])), k);
    } else {
      var t, rest := tasks[0], tasks[1..];
      var h := Header(t);
      CutWritten(tasks, k);
      if k <= |h| {
        CutHeaderIsSafe(t, k);
      } else if k < |h| + 1 + |t.missile| {
        CutMissile(t, t.missile[..k - |h| - 1]);
      } else if k == |h| + 1 + |t.missile| {
        assert t.missile[..|t.missile|] == t.missile + [];
        ReadEntry(t, []);
        ReadNothing();
      } else {
        var more := Written(rest)[..k - |Entry(t)|];
        RobustIsSafe(rest, k - |Entry(t)|);
        SkipBlank(more);
        ReadEntry(t, [LF] + more);
        assert tasks == [t] + rest;
      }
    }
  }

  /** A header cut inside or right after the timestamp of a task without missile. */
  lemma CutTimestamp(t: Task, j: nat, value: int)
    requires t.missile == [] && 0 < j <= |Str(t.timestamp)|
    requires ParseInt(Str(t.timestamp)[..j]) == Some(value)
    ensures |Str(0)| + 1 + j <= |Header(t)|
    ensures ReadAll(Header(t)[..|Str(0)| + 1 + j]).tasks == [Task(value, [], [])]
  {
    hide Str, Split, ParseInt, ReadAll, Decodable, IsPlain;
    var size, part := Str(0), Str(t.timestamp)[..j];
    StrIsWord(0, Text);
    StrPart(t.timestamp, j);
    ParseOfStr(0);
    var cut := Header(t)[..|size| + 1 + j];
    assert cut == size + [SPACE] + part;
    SplitFields(size, part, [], Text);
    StrIsAscii(0);
    StrIsAscii(t.timestamp);
    assert forall c | c in part :: c in Str(t.timestamp);
    AsciiIsDecodable(size + [SPACE] + part);
    ReadBareHeader(cut);
  }

  /** A fragile task: a cut in its header makes the reader yield something else. */
  lemma FragileCut(t: Task) returns (k: nat)
    requires !Robust(t)
    ensures k <= |Header(t)|
    ensures exists wrong :: ReadAll(Header(t)[..k]).tasks == [wrong] && wrong != t
  {
    hide ReadAll, Header;
    var ts, j, value := Str(t.timestamp), |Str(t.timestamp)|, t.timestamp;
    if t.marker != [] {
      assert ts[..j] == ts;
      ParseOfStr(t.timestamp);
    } else {
      j := j - 1;
      DropLastDigit(t.timestamp);
      value := if t.timestamp < 0 then -(-t.timestamp / 10) else t.timestamp / 10;
    }
    CutTimestamp(t, j, value);
    k := |Str(0)| + 1 + j;
  }

  lemma DropLastDigit(n: int)
    requires n <= -10 || 10 <= n
    ensures var s := Str(n);
            && |s| > 1 && ParseInt(s[..|s| - 1]) == Some(if n < 0 then -(-n / 10) else n / 10)
  {
    var m, s := if n < 0 then -n else n, Str(n);
    assert Digits(m) == Digits(m / 10) + [ZERO + m % 10];
    if n < 0 {
      assert s[..|s| - 1] == Str(-(m / 10));
      ParseOfStr(-(m / 10));
    } else {
      assert s[..|s| - 1] == Str(m / 10);
      ParseOfStr(m / 10);
    }
  }

  lemma {:induction false} FragileIsUnsafe(tasks: seq<Task>) returns (k: nat)
    requires !Safe(tasks)
    ensures k <= |Written(tasks)| && !(ReadAll(Written(tasks)[..k]).tasks <= tasks)
  {
    hide Header, ReadAll, Robust, IsMarker, Written, Decodable, LineLength;
    var t, rest := tasks[0], tasks[1..];
    WrittenFirst(tasks);
    if !Robust(t) {
      k := FragileCut(t);
      CutWritten(tasks, k);
    } else if !IsMarker(t.marker) {
      k := |Written(tasks)|;
      assert Written(tasks)[..k] == Written(tasks);
      RobustHasMissile(t);
      SomeTask(t, [LF] + Written(rest));
      MarkersRead(Written(tasks));
      var read := ReadAll(Written(tasks)).tasks;
      assert read[0] in read && read[0] != t;
    } else {
      var j := FragileIsUnsafe(rest);
      k := |Entry(t)| + j;
      EntryFirst(tasks);
      CutWritten(tasks, k);
      var more := Written(rest)[..j];
      SkipBlank(more);
      ReadEntry(t, [LF] + more);
      assert ReadAll(Written(tasks)[..k]).tasks == [t] + ReadAll(more).tasks;
      Unprefixed(t, ReadAll(more).tasks, tasks);
    }
  }

  lemma RobustHasMissile(t: Task)
    requires Robust(t) && !IsMarker(t.marker)
    ensures t.missile != []
  {
    NothingIsText();
  }

  lemma EntryFirst(tasks: seq<Task>)
    requires tasks != []
    ensures |Written(tasks)| == |Entry(tasks[0])| + |Written(tasks[1..])|
    ensures |Entry(tasks[0])| == |Header(tasks[0])| + 1 + |tasks[0].missile| + 1
  {
    hide Header;
  }

  lemma Unprefixed(t: Task, a: seq<Task>, tasks: seq<Task>)
    requires tasks != [] && tasks[0] == t
    ensures [t] + a <= tasks <==> a <= tasks[1..]
  {
    assert tasks == [t] + tasks[1..];
    if [t] + a <= tasks {
      assert forall i | 0 <= i < |a| :: a[i] == ([t] + a)[i + 1];
    }
  }

  /** Reading any beginning of a written file yields a beginning of the tasks, then stops or fails, exactly when the
      tasks are safe, whatever their markers; if all markers keep, that is when every task has a missile, or has neither
      missile nor marker and a timestamp of one digit. */
  lemma TruncationSafeIff(tasks: seq<Task>)
    ensures (forall k | 0 <= k <= |Written(tasks)| :: ReadAll(Written(tasks)[..k]).tasks <= tasks) <==> Safe(tasks)
    ensures (forall t | t in tasks :: IsMarker(t.marker)) ==> (Safe(tasks) <==> forall t | t in tasks :: Robust(t))
  {
    hide Safe, ReadAll, Robust, IsMarker;
    if Safe(tasks) {
      forall k | 0 <= k <= |Written(tasks)| ensures ReadAll(Written(tasks)[..k]).tasks <= tasks {
        RobustIsSafe(tasks, k);
      }
    } else {
      var k := FragileIsUnsafe(tasks);
    }
    if forall t | t in tasks :: IsMarker(t.marker) {
      SafeIfRobust(tasks);
    }
  }

  // ----- the reader as it runs

  lemma ReadEnd(ahead: Bytes)
    requires ReadHeader(ahead).0 == []
    ensures ReadAll(ahead) == Reading([], Complete)
  {
    hide ReadHeader, ParseHeader, Take;
  }

  lemma ReadNoText(ahead: Bytes)
    requires !Decodable(ReadHeader(ahead).0)
    ensures ReadAll(ahead) == Reading([], NotText)
  {
    hide ReadHeader, ParseHeader, Take;
  }

  lemma ReadWrong(ahead: Bytes)
    requires ReadHeader(ahead).0 != []
    requires var (header, body) := ReadHeader(ahead);
             var fields := ParseHeader(header);
             Decodable(header) && (fields.None? || |Take(body, fields.value.size)| < fields.value.size)
    ensures ReadAll(ahead) == Reading([], Damaged)
  {
    hide ReadHeader, ParseHeader, Take;
  }

  lemma ReadTask(ahead: Bytes, header: Bytes, body: Bytes, fields: Fields, missile: Bytes)
    requires (header, body) == ReadHeader(ahead) && header != [] && Decodable(header)
    requires ParseHeader(header) == Some(fields)
    requires missile == Take(body, fields.size) && |missile| >= fields.size
    ensures |missile| <= |body| && |body[|missile|..]| < |ahead|
    ensures var more := ReadAll(body[|missile|..]);
            ReadAll(ahead) == Reading([Task(fields.timestamp, missile, fields.marker)] + more.tasks, more.ending)
  {
    hide ReadHeader, ParseHeader;
  }

  /** The newlines around a header decode by themselves. */
  lemma {:induction false} DecodableStrip(line: Bytes)
    ensures Decodable(line) <==> Decodable(Strip(line))
    decreases |line|
  {
    if line != [] && IsNewline(line[0]) {
      DecodableStrip(line[1..]);
    } else if line != [] && IsNewline(line[|line| - 1]) {
      var front := line[..|line| - 1];
      assert line == front + [line[|line| - 1]];
      DecodableThenAscii(front, line[|line| - 1]);
      DecodableStrip(front);
    }
  }

  class StpdReader {
    const file: Bytes
    var cursor: nat

    constructor (contents: Bytes)
      ensures file == contents && cursor == 0
    {
      file := contents;
      cursor := 0;
    }

    method ReadLine() returns (line: Bytes)
      requires cursor <= |file|
      modifies `cursor
      ensures line == file[old(cursor)..][..LineLength(file[old(cursor)..])]
      ensures cursor == old(cursor) + |line|
    {
      var rest := file[cursor..];
      line := rest[..LineLength(rest)];
      cursor := cursor + |line|;
    }

    /** `read_chunk_header`; false if a line does not decode. */
    method ReadChunkHeader() returns (header: Bytes, isText: bool)
      requires cursor <= |file|
      modifies `cursor
      ensures old(cursor) <= cursor <= |file|
      ensures isText ==> (header, file[cursor..]) == ReadHeader(file[old(cursor)..]) && Decodable(header)
      ensures !isText ==> !Decodable(ReadHeader(file[old(cursor)..]).0)
    {
      hide Decodable, Strip;
      NothingIsText();
      header := [];
      while header == []
        invariant old(cursor) <= cursor <= |file|
        invariant ReadHeader(file[old(cursor)..]) ==
                  if header == [] then ReadHeader(file[cursor..]) else (header, file[cursor..])
        invariant Decodable(header)
        decreases |file| - cursor, header == []
      {
        ghost var rest := file[cursor..];
        var line := ReadLine();
        assert file[cursor..] == rest[|line|..];
        DecodableStrip(line);
        if line == [] {
          return [], true;
        }
        if !Decodable(line) {
          return [], false;
        }
        header := Strip(line);
      }
      isText := true;
    }

    method Read(size: int) returns (missile: Bytes)
      requires cursor <= |file|
      modifies `cursor
      ensures missile == Take(file[old(cursor)..], size)
      ensures old(cursor) <= cursor <= |file| && file[cursor..] == file[old(cursor)..][|missile|..]
    {
      missile := Take(file[cursor..], size);
      cursor := cursor + |missile|;
    }

    /** `__iter__`: `yielded` are the tasks yielded before the end or before an error is raised. */
    method Iterate() returns (yielded: seq<Task>, ending: Ending)
      requires cursor == 0
      modifies `cursor
      ensures Reading(yielded, ending) == ReadAll(file)
    {
      hide ReadAll, ReadHeader, ParseHeader, Take, Decodable;
      yielded := [];
      var chunkHeader, isText := ReadChunkHeader();
      assert file[0..] == file;
      ghost var ahead := file;
      while isText && chunkHeader != []
        invariant cursor <= |file|
        invariant isText ==> (chunkHeader, file[cursor..]) == ReadHeader(ahead) && Decodable(chunkHeader)
        invariant !isText ==> !Decodable(ReadHeader(ahead).0)
        invariant ReadAll(file) == Reading(yielded + ReadAll(ahead).tasks, ReadAll(ahead).ending)
        decreases |ahead|
      {
        ghost var body := file[cursor..];
        var fields := ParseHeader(chunkHeader);
        if fields.None? {
          ReadWrong(ahead);
          return yielded, Damaged;
        }
        var missile := Read(fields.value.size);
        if |missile| < fields.value.size {
          ReadWrong(ahead);
          return yielded, Damaged;
        }
        ReadTask(ahead, chunkHeader, body, fields.value, missile);
        var task := Task(fields.value.timestamp, missile, fields.value.marker);
        Associate(yielded, [task], ReadAll(body[|missile|..]).tasks);
        yielded := yielded + [task];
        ahead := file[cursor..];
        chunkHeader, isText := ReadChunkHeader();
      }
      if !isText {
        ReadNoText(ahead);
        return yielded, NotText;
      }
      ReadEnd(ahead);
      return yielded, Complete;
    }
  }
}
