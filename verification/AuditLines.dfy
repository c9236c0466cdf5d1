/** Records of the audit log: splitting bytes into lines, and reading the last ones backward. */
module AuditLines {
  import opened ByteStrings

  const NEWLINE: byte := 10

  /** The last n elements, or all of them if there are fewer. */
  function LastN<T>(s: seq<T>, n: nat): seq<T> {
    if |s| <= n then s else s[|s| - n..]
  }

  /** A record can be stored as one line. */
  predicate IsRecord(r: bytes) {
    r != [] && NEWLINE !in r
  }

  /**
   The maximal newline-free stretches of data, in order. Each byte other than a newline joins the
   record of the byte after it, or starts one.
   */
  function Records(data: bytes): seq<bytes> {
    if data == [] then []
    else
      var rest := Records(data[1..]);
      if data[0] == NEWLINE then rest
      else if |data| == 1 || data[1] == NEWLINE then [[data[0]]] + rest
      else if rest == [] then [[data[0]]]
      else [[data[0]] + rest[0]] + rest[1..]
  }

  /** One line per record. */
  function Encode(records: seq<bytes>): bytes {
    if records == [] then [] else Encode(records[..|records| - 1]) + records[|records| - 1] + [NEWLINE]
  }

  predicate StartsRecord(data: bytes) {
    data != [] && data[0] != NEWLINE
  }

  lemma {:induction false} RecordsNonEmpty(data: bytes)
    ensures StartsRecord(data) ==> Records(data) != []
    ensures forall r :: r in Records(data) ==> IsRecord(r)
  {
    if data != [] {
      var rest := Records(data[1..]);
      RecordsNonEmpty(data[1..]);
      if rest != [] {
        assert rest[0] in rest;
        assert forall r :: r in rest[1..] ==> r in rest;
      }
    }
  }

  /** Cutting right after a newline splits the records. */
  lemma {:induction false} RecordsSplit(a: bytes, b: bytes)
    requires a == [] || a[|a| - 1] == NEWLINE
    ensures Records(a + b) == Records(a) + Records(b)
  {
    if a == [] {
      assert a + b == b;
    } else {
      assert (a + b)[1..] == a[1..] + b;
      RecordsSplit(a[1..], b);
      RecordsNonEmpty(a[1..]);
    }
  }

  /** A newline-free stretch that ends the data is one record. */
  lemma {:induction false} RecordsOne(r: bytes)
    requires IsRecord(r)
    ensures Records(r) == [r]
  {
    if |r| > 1 {
      RecordsOne(r[1..]);
      assert r == [r[0]] + r[1..];
    } else {
      assert r == [r[0]];
    }
  }

  lemma {:induction false} RecordsLine(r: bytes)
    requires IsRecord(r)
    ensures Records(r + [NEWLINE]) == [r]
  {
    var line := r + [NEWLINE];
    assert line[1..] == r[1..] + [NEWLINE];
    if |r| > 1 {
      RecordsLine(r[1..]);
      assert r == [r[0]] + r[1..];
    } else {
      assert line[1..] == [NEWLINE] && r == [r[0]];
      assert Records([NEWLINE]) == [];
    }
  }

  lemma EncodeEndsLine(records: seq<bytes>)
    ensures Encode(records) == [] || Encode(records)[|Encode(records)| - 1] == NEWLINE
  {
  }

  /** Splitting what was appended gives back the records. */
  lemma {:induction false} RecordsOfEncode(records: seq<bytes>)
    requires forall r :: r in records ==> IsRecord(r)
    ensures Records(Encode(records)) == records
  {
    hide Records;
    if records == [] {
      RecordsEmpty();
    } else {
      var n := |records| - 1;
      var front, line := Encode(records[..n]), records[n] + [NEWLINE];
      RecordsOfEncode(records[..n]);
      RecordsLine(records[n]);
      EncodeEndsLine(records[..n]);
      RecordsSplit(front, line);
      assert Encode(records) == front + line;
    }
  }

  lemma RecordsEmpty()
    ensures Records([]) == [] && Records([NEWLINE]) == []
  {
  }

  /** The forward splitter: empty lines are dropped, an unterminated last one is kept. */
  method SplitAuditLines(data: bytes) returns (lines: seq<bytes>)
    ensures lines == Records(data)
  {
    hide Records;
    lines := [];
    var start := 0;
    RecordsEmpty();
    for i := 0 to |data|
      invariant 0 <= start <= i
      invariant start == 0 || data[start - 1] == NEWLINE
      invariant NEWLINE !in data[start..i]
      invariant lines == Records(data[..start])
    {
      if data[i] == NEWLINE {
        ghost var line := data[start..i + 1];
        assert data[..i + 1] == data[..start] + line;
        assert line == data[start..i] + [NEWLINE];
        RecordsSplit(data[..start], line);
        if i > start {
          RecordsLine(data[start..i]);
          lines := lines + [data[start..i]];
        } else {
          assert line == [NEWLINE];
        }
        start := i + 1;
      }
    }
    assert data == data[..start] + data[start..];
    RecordsSplit(data[..start], data[start..]);
    if start < |data| {
      assert data[start..|data|] == data[start..];
      RecordsOne(data[start..]);
      lines := lines + [data[start..]];
    } else {
      assert data[start..] == [];
    }
  }

  /** How reading one more byte in front changes the number of records. */
  lemma CountInFront(data: bytes, i: nat)
    requires i < |data|
    ensures |Records(data[i..])| ==
            |Records(data[i + 1..])| + (if data[i] != NEWLINE && !StartsRecord(data[i + 1..]) then 1 else 0)
  {
    assert data[i..][1..] == data[i + 1..];
    RecordsNonEmpty(data[i + 1..]);
  }

  /** What the backward reader keeps: a suffix cut at a line boundary with the last n records, or all. */
  lemma SuffixHasLast(data: bytes, cut: nat, n: nat)
    requires cut <= |data|
    requires cut == 0 || data[cut - 1] == NEWLINE
    requires |Records(data[cut..])| == n || (cut == 0 && |Records(data[cut..])| <= n)
    ensures Records(data[cut..]) == LastN(Records(data), n)
  {
    assert data == data[..cut] + data[cut..];
    RecordsSplit(data[..cut], data[cut..]);
    if cut == 0 {
      assert data[0..] == data;
    }
  }

  /** Scans one block backward; stops at the boundary in front of the n-th record from the end. */
  method ScanBlock(chunk: bytes, n: nat, inRecord: bool, ghost data: bytes, ghost start: nat, ghost wanted: nat)
    returns (kept: bytes, found: bool, n': nat, inRecord': bool)
    requires start + |chunk| <= |data| && chunk == data[start..start + |chunk|]
    requires Counted(data, start + |chunk|, n, inRecord, wanted)
    ensures found ==>
      && |kept| <= |chunk| && kept == chunk[|chunk| - |kept|..]
      && (var cut := start + |chunk| - |kept|; 0 < cut && data[cut - 1] == NEWLINE && |Records(data[cut..])| == wanted)
    ensures !found ==> kept == chunk && Counted(data, start, n', inRecord', wanted)
  {
    hide Records;
    kept, found, n', inRecord' := chunk, false, n, inRecord;
    var i := |chunk|;
    while i > 0
      invariant 0 <= i <= |chunk|
      invariant Counted(data, start + i, n', inRecord', wanted)
    {
      i := i - 1;
      assert chunk[i] == data[start + i];
      CountInFront(data, start + i);
      if chunk[i] != NEWLINE {
        inRecord' := true;
        continue;
      }
      if inRecord' {
        n' := n' - 1;
        inRecord' := false;
        if n' == 0 {
          kept := chunk[i + 1..];
          found := true;
          return;
        }
      }
    }
  }

  /**
   At position pos, n more records are wanted out of wanted; inRecord says a record begins at pos
   and may extend further back, so it is not counted yet.
   */
  ghost predicate Counted(data: bytes, pos: nat, n: nat, inRecord: bool, wanted: nat) {
    && pos <= |data| && 0 < n
    && inRecord == StartsRecord(data[pos..])
    && |Records(data[pos..])| + n == wanted + (if inRecord then 1 else 0)
  }

  /** The blocks read so far, last block first, put back in order. */
  function Joined(chunks: seq<bytes>): bytes {
    if chunks == [] then [] else chunks[|chunks| - 1] + Joined(chunks[..|chunks| - 1])
  }

  lemma CountedAtEnd(file: bytes, n: nat)
    requires 0 < n
    ensures Counted(file, |file|, n, false, n) && Joined([]) == file[|file|..]
  {
  }

  /** Counting down to the start of the file has found fewer than n records, but for a first one. */
  lemma CountedAtStart(file: bytes, cut: nat, left: nat, inRecord: bool, n: nat)
    ensures Counted(file, cut, left, inRecord, n) && cut == 0 ==> |Records(file[cut..])| <= n
  {
  }

  lemma JoinedNext(chunks: seq<bytes>, chunk: bytes)
    ensures Joined(chunks + [chunk]) == chunk + Joined(chunks)
  {
    assert (chunks + [chunk])[..|chunks|] == chunks;
  }

  /** The last n records of a file, read backward in blocks. */
  method ReadAuditTail(file: bytes, n: nat, blockSize: nat) returns (lines: seq<bytes>)
    requires 0 < n && 0 < blockSize
    ensures lines == LastN(Records(file), n)
  {
    hide Records, LastN, Counted, Joined;
    var chunks: seq<bytes> := [];
    var left := n;
    var inRecord := false;
    var end := |file|;
    ghost var cut := |file|;
    CountedAtEnd(file, n);
    while end > 0
      invariant 0 <= end <= cut <= |file|
      invariant Joined(chunks) == file[cut..]
      invariant end == 0 || end == cut
      invariant || (Counted(file, cut, left, inRecord, n) && end == cut)
                || (end == 0 && 0 < cut && file[cut - 1] == NEWLINE && |Records(file[cut..])| == n)
      decreases end
    {
      var start := if end < blockSize then 0 else end - blockSize;
      var chunk := file[start..end];
      var found;
      chunk, found, left, inRecord := ScanBlock(chunk, left, inRecord, file, start, n);
      cut := end - |chunk|;
      JoinedNext(chunks, chunk);
      assert file[cut..] == chunk + file[end..];
      chunks := chunks + [chunk];
      end := if found then 0 else start;
    }
    var data := Join(chunks);
    CountedAtStart(file, cut, left, inRecord, n);
    SuffixHasLast(file, cut, n);
    lines := SplitAuditLines(data);
  }

  method Join(chunks: seq<bytes>) returns (data: bytes)
    ensures data == Joined(chunks)
  {
    data := [];
    var i := |chunks|;
    assert chunks[..i] == chunks && data + Joined(chunks) == Joined(chunks);
    while i > 0
      invariant 0 <= i <= |chunks|
      invariant data + Joined(chunks[..i]) == Joined(chunks)
    {
      i := i - 1;
      assert chunks[..i + 1][..i] == chunks[..i];
      data := data + chunks[i];
    }
    assert chunks[..0] == [] && data + [] == data;
  }

  // ---------------------------------------------------------------------------------------------
  // One file, then both
  // ---------------------------------------------------------------------------------------------

  /** The last n of s for a positive n, all of s otherwise. */
  function Tail<T>(s: seq<T>, n: int): seq<T> {
    if n > 0 then LastN(s, n) else s
  }

  datatype ReadResult = Lines(lines: seq<bytes>) | TooLarge

  /** A missing file is empty; a file above the cap is refused. */
  function ReadFile(file: Option<bytes>, n: int, cap: nat): ReadResult {
    match file
    case None => Lines([])
    case Some(data) => if |data| > cap then TooLarge else Lines(Tail(Records(data), n))
  }

  method ReadAuditFileLines(file: Option<bytes>, n: int, cap: nat, blockSize: nat) returns (r: ReadResult)
    requires 0 < blockSize
    ensures r == ReadFile(file, n, cap)
  {
    if file.None? {
      return Lines([]);
    }
    if |file.value| > cap {
      return TooLarge;
    }
    var lines;
    if n > 0 {
      lines := ReadAuditTail(file.value, n, blockSize);
    } else {
      lines := SplitAuditLines(file.value);
    }
    return Lines(lines);
  }

  /** What the reader returns after the active file gave lines and the rotated one gave rotated. */
  function Combine(lines: seq<bytes>, rotated: seq<bytes>, n: int): seq<bytes> {
    if n > 0 && |lines| >= n then lines[|lines| - n..]
    else Tail(rotated + lines, n)
  }

  function Remaining(n: int, lines: seq<bytes>): int {
    if n > 0 then n - |lines| else n
  }

  lemma LastOfEnough<T>(a: seq<T>, b: seq<T>, n: nat)
    requires n <= |b|
    ensures LastN(a + b, n) == LastN(b, n)
  {
    assert |b| == n ==> (a + b)[|a + b| - n..] == b;
  }

  lemma LastOfBoth<T>(a: seq<T>, b: seq<T>, n: nat)
    requires |b| < n
    ensures LastN(a + b, n) == LastN(a, n - |b|) + b
  {
    if |a| + |b| <= n {
      assert LastN(a, n - |b|) == a;
    } else {
      assert (a + b)[|a + b| - n..] == a[|a| + |b| - n..] + b;
    }
  }

  /** Asking the rotated file only for what the active one lacks gives the tail of both. */
  lemma CombineIsTail(rotated: seq<bytes>, active: seq<bytes>, n: int)
    ensures var lines := Tail(active, n);
      Combine(lines, Tail(rotated, Remaining(n, lines)), n) == Tail(rotated + active, n)
  {
    hide LastN;
    var lines := Tail(active, n);
    if n > 0 {
      LastLength(active, n);
      if |active| >= n {
        LastOfEnough(rotated, active, n);
        assert lines[|lines| - n..] == lines;
      } else {
        LastOfBoth(rotated, active, n);
        LastOfShort(active, n);
        var older := LastN(rotated, n - |active|);
        LastLength(rotated, n - |active|);
        LastOfShort(older + lines, n);
      }
    }
  }

  lemma LastLength<T>(s: seq<T>, n: nat)
    ensures |LastN(s, n)| == Min(|s|, n)
  {
  }

  lemma LastOfShort<T>(s: seq<T>, n: nat)
    requires |s| <= n
    ensures LastN(s, n) == s
  {
  }

  predicate Above(file: Option<bytes>, cap: nat) {
    file.Some? && |file.value| > cap
  }

  /** Refused exactly when a file that is read is above the cap: the older one is read only if needed. */
  method TailAudit(active: Option<bytes>, rotated: Option<bytes>, n: int, cap: nat, blockSize: nat)
    returns (r: ReadResult)
    requires 0 < blockSize
    ensures r.Lines? ==> r.lines == Tail(RecordsIn(rotated) + RecordsIn(active), n)
    ensures r.TooLarge? <==> Above(active, cap) || (Above(rotated, cap) && (n <= 0 || |RecordsIn(active)| < n))
  {
    var lines := ReadAuditFileLines(active, n, cap, blockSize);
    if lines.TooLarge? {
      return TooLarge;
    }
    CombineIsTail(RecordsIn(rotated), RecordsIn(active), n);
    if n > 0 {
      LastLength(RecordsIn(active), n);
    }
    if n > 0 && |lines.lines| >= n {
      return Lines(lines.lines[|lines.lines| - n..]);
    }
    var remaining := n;
    if n > 0 {
      remaining := remaining - |lines.lines|;
    }
    var older := ReadAuditFileLines(rotated, remaining, cap, blockSize);
    if older.TooLarge? {
      return TooLarge;
    }
    return Lines(Tail(older.lines + lines.lines, n));
  }

  function RecordsIn(file: Option<bytes>): seq<bytes> {
    match file
    case None => []
    case Some(data) => Records(data)
  }
}
