/** Cutting a growing file into whole lines: `PhantomReader.__next__` of yandextank/plugins/Phantom/reader.py and
    `FileScanner._read_lines` of yandextank/common/util.py. */
module Lines {
  import opened Common

  // ----- str.split(sep)

  predicate OccursAt(s: string, sep: string, i: nat) {
    i + |sep| <= |s| && s[i..i + |sep|] == sep
  }

  /** Where the separator first occurs, from a position on. */
  function FindFrom(s: string, sep: string, from: nat): (i: Option<nat>)
    requires from <= |s|
    ensures i.Some? ==> OccursAt(s, sep, i.value) && forall j | from <= j < i.value :: !OccursAt(s, sep, j)
    ensures i.None? ==> forall j | from <= j :: !OccursAt(s, sep, j)
    decreases |s| - from
  {
    if OccursAt(s, sep, from) then Some(from)
    else if from == |s| then None
    else FindFrom(s, sep, from + 1)
  }

  function Find(s: string, sep: string): (i: Option<nat>)
    requires sep != ""
    ensures i.Some? ==> OccursAt(s, sep, i.value) && forall j | 0 <= j < i.value :: !OccursAt(s, sep, j)
    ensures i.None? ==> forall j: nat :: !OccursAt(s, sep, j)
  {
    FindFrom(s, sep, 0)
  }

  lemma FindIs(s: string, sep: string, i: nat)
    requires sep != "" && OccursAt(s, sep, i) && forall j | 0 <= j < i :: !OccursAt(s, sep, j)
    ensures Find(s, sep) == Some(i)
  {
  }

  function Split(s: string, sep: string): (portions: seq<string>)
    requires sep != ""
    ensures portions != []
    decreases |s|
  {
    var i := Find(s, sep);
    if i.None? then [s] else [s[..i.value]] + Split(s[i.value + |sep|..], sep)
  }

  /** The complete lines, and what follows the last separator. */
  function Complete(s: string, sep: string): seq<string>
    requires sep != ""
  {
    Split(s, sep)[..|Split(s, sep)| - 1]
  }

  function Rest(s: string, sep: string): string
    requires sep != ""
  {
    Split(s, sep)[|Split(s, sep)| - 1]
  }

  /** `sep.join(portions)` */
  function Join(portions: seq<string>, sep: string): string
    requires portions != []
  {
    if |portions| == 1 then portions[0] else portions[0] + sep + Join(portions[1..], sep)
  }

  /** Splitting loses nothing. */
  lemma {:induction false} JoinOfSplit(s: string, sep: string)
    requires sep != ""
    ensures Join(Split(s, sep), sep) == s
    decreases |s|
  {
    var i := Find(s, sep);
    if i.Some? {
      JoinOfSplit(s[i.value + |sep|..], sep);
      assert s == s[..i.value] + sep + s[i.value + |sep|..];
      assert Split(s, sep)[1..] == Split(s[i.value + |sep|..], sep);
    }
  }

  /** The first separator of a text stays the first one, however the text goes on. */
  lemma FindExtended(x: string, y: string, sep: string)
    requires sep != "" && Find(x, sep).Some?
    ensures Find(x + y, sep) == Find(x, sep)
  {
    var i := Find(x, sep).value;
    forall j: nat | j <= i ensures OccursAt(x + y, sep, j) == OccursAt(x, sep, j) {
      assert (x + y)[j..j + |sep|] == x[j..j + |sep|];
    }
    FindIs(x + y, sep, i);
  }

  lemma SplitFirst(s: string, sep: string)
    requires sep != ""
    ensures match Find(s, sep)
      case Some(i) =>
        Complete(s, sep) == [s[..i]] + Complete(s[i + |sep|..], sep) && Rest(s, sep) == Rest(s[i + |sep|..], sep)
      case None => Complete(s, sep) == [] && Rest(s, sep) == s
  {
  }

  lemma Regrouped(first: string, a: seq<string>, b: seq<string>)
    ensures [first] + (a + b) == ([first] + a) + b
  {
  }

  /** Splitting a text in two goes: only what followed the last separator has to be looked at again. */
  lemma {:induction false} SplitExtended(x: string, y: string, sep: string)
    requires sep != ""
    ensures Complete(x + y, sep) == Complete(x, sep) + Complete(Rest(x, sep) + y, sep)
    ensures Rest(x + y, sep) == Rest(Rest(x, sep) + y, sep)
    decreases |x|
  {
    hide Complete, Rest, FindFrom, Find;
    var i := Find(x, sep);
    SplitFirst(x, sep);
    if i.Some? {
      var x', s := x[i.value + |sep|..], x + y;
      FindExtended(x, y, sep);
      SplitExtended(x', y, sep);
      assert s[..i.value] == x[..i.value] && s[i.value + |sep|..] == x' + y;
      SplitFirst(s, sep);
      Regrouped(x[..i.value], Complete(x', sep), Complete(Rest(x', sep) + y, sep));
    } else {
      assert [] + Complete(x + y, sep) == Complete(x + y, sep);
    }
  }

  class FileScanner {
    const sep: string
    var buffer: string
    ghost var received: string

    /** The buffer is what follows the last separator of everything received. */
    ghost predicate Valid()
      reads this
    {
      sep != "" && buffer == Rest(received, sep)
    }

    constructor (sep: string)
      requires sep != ""
      ensures Valid() && this.sep == sep && received == ""
    {
      this.sep := sep;
      buffer, received := "", "";
      new;
      assert Split("", sep) == [""];
    }

    method ReadLines(chunk: string) returns (lines: seq<string>)
      requires Valid()
      modifies this
      ensures Valid() && received == old(received) + chunk
      ensures Complete(received, sep) == Complete(old(received), sep) + lines
    {
      SplitExtended(received, chunk, sep);
      received := received + chunk;
      buffer := buffer + chunk;
      var portions := Split(buffer, sep);
      lines := portions[..|portions| - 1];
      buffer := portions[|portions| - 1];
    }

    /** However the text is cut into reads, the lines are those of the whole text. */
    method ReadAll(chunks: seq<string>) returns (lines: seq<string>)
      requires Valid() && received == ""
      modifies this
      ensures Valid() && received == Flatten(chunks)
      ensures lines == Complete(Flatten(chunks), sep) && buffer == Rest(Flatten(chunks), sep)
    {
      lines := [];
      assert Split("", sep) == [""];
      for i := 0 to |chunks|
        invariant Valid() && received == Flatten(chunks[..i]) && lines == Complete(received, sep)
      {
        assert chunks[..i + 1][..i] == chunks[..i];
        var more := ReadLines(chunks[i]);
        lines := lines + more;
      }
      assert chunks[..|chunks|] == chunks;
    }
  }

  // ----- phout chunks

  /** Length of `data` up to and including its last newline; 0 without one. */
  function ThroughLastNewline(data: string): (n: nat)
    ensures n <= |data|
    ensures n > 0 ==> data[n - 1] == '\n'
    ensures forall i | n <= i < |data| :: data[i] != '\n'
  {
    if data == "" then 0
    else if data[|data| - 1] == '\n' then |data|
    else ThroughLastNewline(data[..|data| - 1])
  }

  /** Nothing is lost or repeated; every chunk ends a line, and the buffer is part of an unfinished one. */
  ghost predicate Kept(chunks: seq<string>, buffer: string, received: string) {
    && Flatten(chunks) + buffer == received
    && (forall c | c in chunks :: c != "" && c[|c| - 1] == '\n')
    && '\n' !in buffer
  }

  lemma ChunkAdded(chunks: seq<string>, buffer: string, received: string, data: string)
    requires Kept(chunks, buffer, received) && ThroughLastNewline(data) > 0
    ensures '\n' in data
    ensures var n := ThroughLastNewline(data);
            Kept(chunks + [buffer + data[..n - 1] + "\n"], data[n..], received + data)
  {
    var n := ThroughLastNewline(data);
    var chunk := buffer + data[..n - 1] + "\n";
    AfterLastNewline(data);
    CutAfter(data, n);
    FlattenOfMore(chunks, chunk);
    hide Flatten, ThroughLastNewline;
    Associate(buffer, data[..n - 1], "\n");
    Regroup(Flatten(chunks), buffer, data[..n - 1] + "\n", data[n..]);
    forall c | c in chunks + [chunk] ensures c != "" && c[|c| - 1] == '\n' {
      assert c in chunks || c == chunk;
    }
  }

  lemma AfterLastNewline(data: string)
    requires ThroughLastNewline(data) > 0
    ensures '\n' in data && '\n' !in data[ThroughLastNewline(data)..]
  {
    assert data[ThroughLastNewline(data) - 1] in data;
  }

  lemma CutAfter(data: string, n: nat)
    requires 0 < n <= |data| && data[n - 1] == '\n'
    ensures data == (data[..n - 1] + "\n") + data[n..]
  {
  }

  lemma Regroup(a: string, b: string, c: string, d: string)
    ensures (a + (b + c)) + d == (a + b) + (c + d)
  {
  }

  lemma Unfinished(chunks: seq<string>, buffer: string, received: string, data: string)
    requires Kept(chunks, buffer, received) && ThroughLastNewline(data) == 0
    ensures '\n' !in data
    ensures Kept(chunks, buffer + data, received + data)
  {
    hide Flatten;
    assert '\n' !in data;
    Associate(Flatten(chunks), buffer, data);
  }

  class PhantomReader {
    var buffer: string
    ghost var received: string
    ghost var chunks: seq<string>

    ghost predicate Valid()
      reads this
    {
      Kept(chunks, buffer, received)
    }

    constructor ()
      ensures Valid() && received == "" && chunks == []
    {
      buffer, received, chunks := "", "", [];
    }

    /** One read; the chunk goes to the parser, None says there is nothing to parse yet. */
    method Next(data: string) returns (chunk: Option<string>)
      requires Valid()
      modifies this
      ensures Valid() && received == old(received) + data
      ensures chunk.None? <==> '\n' !in data
      ensures chunks == if chunk.Some? then old(chunks) + [chunk.value] else old(chunks)
    {
      hide Kept;
      var n := ThroughLastNewline(data);
      if n > 0 {
        ChunkAdded(chunks, buffer, received, data);
        chunk := Some(buffer + data[..n - 1] + "\n");
        chunks := chunks + [chunk.value];
        buffer := data[n..];
      } else {
        Unfinished(chunks, buffer, received, data);
        buffer := buffer + data;
        chunk := None;
      }
      received := received + data;
    }

    method ReadAll(pieces: seq<string>) returns (parsed: seq<string>)
      requires Valid() && received == "" && chunks == []
      modifies this
      ensures Valid() && received == Flatten(pieces) && chunks == parsed
      ensures Flatten(parsed) == Flatten(pieces)[..ThroughLastNewline(Flatten(pieces))]
    {
      parsed := [];
      for i := 0 to |pieces|
        invariant Valid() && received == Flatten(pieces[..i]) && chunks == parsed
      {
        assert pieces[..i + 1][..i] == pieces[..i];
        var chunk := Next(pieces[i]);
        if chunk.Some? {
          parsed := parsed + [chunk.value];
        }
      }
      assert pieces[..|pieces|] == pieces;
      CutAtNewline(Flatten(parsed), buffer);
      EndsInNewline(parsed);
    }
  }

  lemma CutAtNewline(whole: string, part: string)
    requires '\n' !in part && (whole == "" || whole[|whole| - 1] == '\n')
    ensures (whole + part)[..ThroughLastNewline(whole + part)] == whole
  {
    var s, n := whole + part, ThroughLastNewline(whole + part);
    assert forall i | |whole| <= i < |s| :: s[i] == part[i - |whole|] && part[i - |whole|] != '\n';
    assert whole != "" ==> s[|whole| - 1] == '\n';
  }

  lemma EndsInNewline(chunks: seq<string>)
    requires forall c | c in chunks :: c != "" && c[|c| - 1] == '\n'
    ensures Flatten(chunks) == "" || Flatten(chunks)[|Flatten(chunks)| - 1] == '\n'
  {
  }

  /** Dropping an unfinished last line changes none of the finished ones. */
  lemma FinishedLines(whole: string, part: string)
    requires '\n' !in part && (whole == "" || whole[|whole| - 1] == '\n')
    ensures Complete(whole + part, "\n") == Complete(whole, "\n") && Rest(whole + part, "\n") == part
  {
    SplitExtended(whole, part, "\n");
    NothingToFind(part);
    if whole != "" {
      assert whole == whole[..|whole| - 1] + "\n";
      LastLineEmpty(whole[..|whole| - 1]);
    }
  }

  lemma HoldsNewline(s: string, j: nat)
    requires OccursAt(s, "\n", j)
    ensures '\n' in s
  {
    assert s[j] == s[j..j + 1][0];
  }

  lemma NothingToFind(s: string)
    requires '\n' !in s
    ensures Find(s, "\n").None? && Complete(s, "\n") == [] && Rest(s, "\n") == s
  {
    forall j: nat ensures !OccursAt(s, "\n", j) {
      if OccursAt(s, "\n", j) {
        HoldsNewline(s, j);
      }
    }
  }

  /** No separator is left in what follows the last one. */
  lemma {:induction false} RestIsUnfinished(s: string, sep: string)
    requires sep != ""
    ensures Find(Rest(s, sep), sep).None?
    decreases |s|
  {
    hide Complete, Rest, FindFrom;
    var i := Find(s, sep);
    SplitFirst(s, sep);
    if i.Some? {
      RestIsUnfinished(s[i.value + |sep|..], sep);
    }
  }

  lemma FindAppended(s: string)
    requires Find(s, "\n").None?
    ensures Find(s + "\n", "\n") == Some(|s|)
  {
    forall j: nat | j < |s| ensures !OccursAt(s + "\n", "\n", j) {
      assert (s + "\n")[j..j + 1] == s[j..j + 1];
      assert !OccursAt(s, "\n", j);
    }
    FindIs(s + "\n", "\n", |s|);
  }

  lemma LastLineEmpty(s: string)
    ensures Rest(s + "\n", "\n") == ""
  {
    SplitExtended(s, "\n", "\n");
    RestIsUnfinished(s, "\n");
    var r := Rest(s, "\n");
    FindAppended(r);
    SplitFirst(r + "\n", "\n");
    assert (r + "\n")[|r| + 1..] == "";
    NothingToFind("");
  }

  /** Both readers see the same lines in a file, however each of them cuts it into reads: the lines that the scanner
      yields are those of the chunks that the other hands to its parser. */
  method SameLines(pieces: seq<string>, otherPieces: seq<string>) returns (lines: seq<string>, chunks: seq<string>)
    requires Flatten(pieces) == Flatten(otherPieces)
    ensures lines == Complete(Flatten(pieces), "\n") == Complete(Flatten(chunks), "\n")
  {
    var scanner := new FileScanner("\n");
    var reader := new PhantomReader();
    lines := scanner.ReadAll(pieces);
    chunks := reader.ReadAll(otherPieces);
    ghost var whole := Flatten(chunks);
    EndsInNewline(chunks);
    FinishedLines(whole, reader.buffer);
  }
}
