/** Byte ranges (section 14.1.2 of RFC 9110): reading the header, printing it again, and streaming the bytes. */
module ByteRanges {
  import opened Basics
  import opened Text

  datatype ByteRange = ByteRange(start: int, end: int)

  function HeaderValue(r: ByteRange): string
    requires 0 <= r.start && 0 <= r.end
  {
    "bytes=" + Decimal(r.start) + "-" + Decimal(r.end)
  }

  datatype InvalidByteRange = InvalidByteRange(size: int)

  /** str.partition("-"): what comes before the first dash, and what comes after it. */
  function Partition(s: string): Option<(string, string)> {
    if s == [] then None
    else if s[0] == '-' then Some(([], s[1..]))
    else match Partition(s[1..])
      case None => None
      case Some((left, right)) => Some(([s[0]] + left, right))
  }

  function NormalizeByteRange(header: Option<string>, size: int): Result<Option<ByteRange>, InvalidByteRange> {
    if header.None? || header.value == "" then Ok(None)
    else if size <= 0 || !StartsWith(header.value, "bytes=") then Err(InvalidByteRange(size))
    else
      var spec := Strip(header.value[6..]);
      if spec == "" || ',' in spec then Err(InvalidByteRange(size))
      else match Partition(spec)
        case None => Err(InvalidByteRange(size))
        case Some((left, right)) => NormalizeEnds(Strip(left), Strip(right), size)
  }

  function NormalizeEnds(rawStart: string, rawEnd: string, size: int): Result<Option<ByteRange>, InvalidByteRange> {
    if rawStart != "" then
      if !AllDigits(rawStart) then Err(InvalidByteRange(size))
      else
        var start := ParseDecimal(rawStart);
        if start >= size then Err(InvalidByteRange(size))
        else if rawEnd != "" then
          if !AllDigits(rawEnd) then Err(InvalidByteRange(size))
          else
            var end := ParseDecimal(rawEnd);
            if end < start then Err(InvalidByteRange(size))
            else Ok(Some(ByteRange(start, Min(end, size - 1))))
        else Ok(Some(ByteRange(start, size - 1)))
    else if !AllDigits(rawEnd) then Err(InvalidByteRange(size))
    else
      var suffixLength := ParseDecimal(rawEnd);
      if suffixLength <= 0 then Err(InvalidByteRange(size))
      else
        var length := Min(suffixLength, size);
        Ok(Some(ByteRange(size - length, size - 1)))
  }

  // ----- the meaning of a header, independently of how it is read -----

  /** The three forms of the standard. */
  datatype Spec = FirstLast(first: nat, last: nat) | From(first: nat) | Suffix(length: nat)

  predicate Blank(s: string) { Strip(s) == "" }

  predicate Number(s: string, n: nat) {
    AllDigits(Strip(s)) && ParseDecimal(Strip(s)) == n
  }

  predicate WritesEnds(x: string, y: string, spec: Spec) {
    match spec
    case FirstLast(first, last) => Number(x, first) && Number(y, last)
    case From(first) => Number(x, first) && Blank(y)
    case Suffix(length) => Blank(x) && Number(y, length)
  }

  /** The header is a way of writing the form. */
  ghost predicate Writes(header: string, spec: Spec) {
    exists x, y :: header == "bytes=" + x + "-" + y && WritesEnds(x, y, spec)
  }

  predicate Selects(spec: Spec, size: int, i: int) {
    match spec
    case FirstLast(first, last) => first <= i <= last
    case From(first) => first <= i
    case Suffix(length) => size - length <= i
  }

  predicate Within(r: ByteRange, i: int) { r.start <= i <= r.end }

  /** The range is exactly the bytes of the file that the form selects, and there are some. */
  ghost predicate Covers(r: ByteRange, spec: Spec, size: int) {
    && r.start <= r.end
    && forall i :: Within(r, i) <==> 0 <= i < size && Selects(spec, size, i)
  }

  // ----- blanks and dashes -----

  predicate AllBlank(s: string) { forall i :: 0 <= i < |s| ==> IsSpace(s[i]) }

  lemma {:induction false} StripLeftSplits(s: string) returns (l: string)
    ensures s == l + StripLeft(s) && AllBlank(l)
    ensures StripLeft(s) == [] || !IsSpace(StripLeft(s)[0])
  {
    if s != [] && IsSpace(s[0]) {
      l := StripLeftSplits(s[1..]);
      l := [s[0]] + l;
    } else {
      l := [];
    }
  }

  lemma {:induction false} StripRightSplits(s: string) returns (r: string)
    ensures s == StripRight(s) + r && AllBlank(r)
    ensures StripRight(s) == [] || !IsSpace(StripRight(s)[|StripRight(s)| - 1])
  {
    if s != [] && IsSpace(s[|s| - 1]) {
      r := StripRightSplits(s[..|s| - 1]);
      r := r + [s[|s| - 1]];
    } else {
      r := [];
    }
  }

  lemma {:induction false} StripLeftStops(x: string, y: string)
    requires y != [] && !IsSpace(y[0])
    ensures StripLeft(x + y) == StripLeft(x) + y
  {
    if x == [] {
      assert x + y == y;
    } else {
      assert (x + y)[1..] == x[1..] + y;
      StripLeftStops(x[1..], y);
      if !IsSpace(x[0]) { assert StripLeft(x) == x; }
    }
  }

  lemma {:induction false} StripRightStops(x: string, y: string)
    requires x != [] && !IsSpace(x[|x| - 1])
    ensures StripRight(x + y) == x + StripRight(y)
  {
    if y == [] {
      assert x + y == x;
    } else {
      assert (x + y)[..|x + y| - 1] == x + y[..|y| - 1];
      StripRightStops(x, y[..|y| - 1]);
      if !IsSpace(y[|y| - 1]) { assert StripRight(y) == y; }
    }
  }

  lemma StripAroundDash(x: string, y: string)
    ensures Strip(x + "-" + y) == StripLeft(x) + "-" + StripRight(y)
  {
    assert x + "-" + y == x + ("-" + y);
    StripLeftStops(x, "-" + y);
    assert StripLeft(x) + ("-" + y) == (StripLeft(x) + "-") + y;
    StripRightStops(StripLeft(x) + "-", y);
  }

  lemma {:induction false} StripIdempotent(s: string)
    ensures Strip(StripLeft(s)) == Strip(s) && Strip(StripRight(s)) == Strip(s)
  {
    var l := StripLeftSplits(s);
    assert StripLeft(StripLeft(s)) == StripLeft(s);
    StripsCommute(s);
    StripsCommute(StripRight(s));
    var r := StripRightSplits(s);
    assert StripRight(StripRight(s)) == StripRight(s);
  }

  /** It does not matter which end is stripped first. */
  lemma {:induction false} StripsCommute(s: string)
    ensures StripRight(StripLeft(s)) == StripLeft(StripRight(s))
  {
    if s != [] && IsSpace(s[0]) {
      StripsCommute(s[1..]);
      var r := StripRightSplits(s[1..]);
      var core := StripRight(s[1..]);
      if core == [] {
        AllBlankStripsToNothing(s);
      } else {
        assert s == ([s[0]] + core) + r;
        StripRightStops([s[0]] + core, r);
        AllBlankStripsToNothing(r);
        assert StripRight(s) == [s[0]] + core;
        assert ([s[0]] + core)[1..] == core;
      }
    } else if s != [] {
      assert s == [s[0]] + s[1..];
      StripRightStops([s[0]], s[1..]);
    }
  }

  lemma {:induction false} AllBlankStripsToNothing(s: string)
    requires AllBlank(s)
    ensures StripRight(s) == []
  {
    if s == [] {
    } else {
      AllBlankStripsToNothing(s[..|s| - 1]);
    }
  }

  lemma {:induction false} PartitionAt(left: string, right: string)
    requires '-' !in left
    ensures Partition(left + "-" + right) == Some((left, right))
  {
    var s := left + "-" + right;
    if left != [] {
      assert s[1..] == left[1..] + "-" + right && left == [left[0]] + left[1..];
      assert left[0] in left;
      PartitionAt(left[1..], right);
    }
  }

  lemma {:induction false} PartitionSplits(s: string)
    requires Partition(s).Some?
    ensures s == Partition(s).value.0 + "-" + Partition(s).value.1 && '-' !in Partition(s).value.0
  {
    if s[0] != '-' { PartitionSplits(s[1..]); }
  }

  /** Blanks around digits, or blanks alone, contain neither dash nor comma. */
  lemma NumberOrBlankChars(s: string, c: char)
    requires Strip(s) == "" || AllDigits(Strip(s))
    requires !IsDigit(c) && !IsSpace(c)
    ensures c !in s
  {
    var l, r := StripSplits(s);
    BlankLacks(l, c);
    BlankLacks(r, c);
    DigitsLack(Strip(s), c);
  }

  lemma BlankLacks(s: string, c: char)
    requires AllBlank(s) && !IsSpace(c)
    ensures c !in s
  {
  }

  lemma DigitsLack(s: string, c: char)
    requires (s == "" || AllDigits(s)) && !IsDigit(c)
    ensures c !in s
  {
  }

  // ----- the header is read as it is meant -----

  /** What the form selects, computed. */
  function Resolve(spec: Spec, size: int): Option<ByteRange>
    requires size > 0
  {
    match spec
    case FirstLast(first, last) =>
      if first < size && first <= last then Some(ByteRange(first, Min(last, size - 1))) else None
    case From(first) => if first < size then Some(ByteRange(first, size - 1)) else None
    case Suffix(length) => if length > 0 then Some(ByteRange(size - Min(length, size), size - 1)) else None
  }

  lemma ResolveCovers(spec: Spec, size: int, r: ByteRange)
    requires size > 0
    ensures Resolve(spec, size) == Some(r) <==> Covers(r, spec, size)
  {
    if Covers(r, spec, size) {
      assert Within(r, r.start) && Within(r, r.end);
      var q := Resolve(spec, size).value;
      assert Within(r, q.start) && Within(r, q.end);
    }
  }

  lemma EndsAreRead(x: string, y: string, spec: Spec, size: int)
    requires WritesEnds(x, y, spec) && size > 0
    ensures NormalizeEnds(Strip(x), Strip(y), size)
         == if Resolve(spec, size).Some? then Ok(Resolve(spec, size)) else Err(InvalidByteRange(size))
  {
  }

  lemma EndsAreParted(x: string, y: string)
    requires Strip(x) == "" || AllDigits(Strip(x))
    requires Strip(y) == "" || AllDigits(Strip(y))
    ensures ',' !in StripLeft(x) + "-" + StripRight(y)
    ensures Partition(StripLeft(x) + "-" + StripRight(y)) == Some((StripLeft(x), StripRight(y)))
  {
    StripIdempotent(x);
    StripIdempotent(y);
    NumberOrBlankChars(StripLeft(x), '-');
    NumberOrBlankChars(StripLeft(x), ',');
    NumberOrBlankChars(StripRight(y), ',');
    PartitionAt(StripLeft(x), StripRight(y));
  }

  lemma WrittenIsRead(x: string, y: string, spec: Spec, size: int)
    requires WritesEnds(x, y, spec) && size > 0
    ensures NormalizeByteRange(Some("bytes=" + x + "-" + y), size)
         == if Resolve(spec, size).Some? then Ok(Resolve(spec, size)) else Err(InvalidByteRange(size))
  {
    var header := "bytes=" + x + "-" + y;
    assert header[6..] == x + "-" + y && header[..6] == "bytes=";
    StripAroundDash(x, y);
    StripIdempotent(x);
    StripIdempotent(y);
    EndsAreParted(x, y);
    EndsAreRead(x, y, spec, size);
  }

  /** The form a pair of stripped ends is read as. */
  function FormOf(left: string, right: string): Spec
    requires if left == "" then AllDigits(right) else AllDigits(left) && (right == "" || AllDigits(right))
  {
    if left == "" then Suffix(ParseDecimal(right))
    else if right == "" then From(ParseDecimal(left))
    else FirstLast(ParseDecimal(left), ParseDecimal(right))
  }

  lemma FormIsWritten(x: string, y: string, size: int)
    requires NormalizeEnds(Strip(x), Strip(y), size).Ok?
    ensures WritesEnds(x, y, FormOf(Strip(x), Strip(y)))
  {
  }

  /** Around the first dash of the stripped text. */
  lemma DashSplits(rest: string) returns (x: string, y: string)
    requires Partition(Strip(rest)).Some?
    ensures rest == x + "-" + y
    ensures Strip(x) == Strip(Partition(Strip(rest)).value.0) && Strip(y) == Strip(Partition(Strip(rest)).value.1)
  {
    var l, r := StripSplits(rest);
    PartitionSplits(Strip(rest));
    var (left, right) := Partition(Strip(rest)).value;
    x, y := l + left, right + r;
    BlankBefore(l, left);
    BlankAfter(right, r);
    Regroup(l, left, right, r);
  }

  lemma Regroup(l: string, left: string, right: string, r: string)
    ensures l + (left + "-" + right) + r == (l + left) + "-" + (right + r)
  {
  }

  lemma StripSplits(s: string) returns (l: string, r: string)
    ensures s == l + Strip(s) + r && AllBlank(l) && AllBlank(r)
  {
    l := StripLeftSplits(s);
    r := StripRightSplits(StripLeft(s));
    assert l + Strip(s) + r == l + (Strip(s) + r);
  }

  lemma ReadIsWritten(header: string, size: int)
    requires NormalizeByteRange(Some(header), size).Ok? && header != ""
    ensures exists spec :: Writes(header, spec)
  {
    var x, y := DashSplits(header[6..]);
    FormIsWritten(x, y, size);
    assert header == header[..6] + header[6..];
    assert "bytes=" + (x + "-" + y) == "bytes=" + x + "-" + y;
    assert Writes(header, FormOf(Strip(x), Strip(y)));
  }

  lemma {:induction false} BlankBefore(l: string, s: string)
    requires AllBlank(l)
    ensures Strip(l + s) == Strip(s)
  {
    if l == [] {
      assert l + s == s;
    } else {
      assert (l + s)[1..] == l[1..] + s;
      BlankBefore(l[1..], s);
    }
  }

  lemma {:induction false} BlankAfter(s: string, r: string)
    requires AllBlank(r)
    ensures Strip(s + r) == Strip(s)
  {
    StripsCommute(s + r);
    StripsCommute(s);
    BlankAfterRight(s, r);
  }

  lemma {:induction false} BlankAfterRight(s: string, r: string)
    requires AllBlank(r)
    ensures StripRight(s + r) == StripRight(s)
  {
    if r == [] {
      assert s + r == s;
    } else {
      assert (s + r)[..|s + r| - 1] == s + r[..|r| - 1];
      BlankAfterRight(s, r[..|r| - 1]);
    }
  }

  /** A range is accepted exactly when the header is a way of writing a form that selects bytes of the file, and
      then it is exactly those bytes. */
  lemma AcceptedIffMeant(header: string, size: int, r: ByteRange)
    requires header != ""
    ensures NormalizeByteRange(Some(header), size) == Ok(Some(r))
       <==> size > 0 && exists spec :: Writes(header, spec) && Covers(r, spec, size)
  {
    if NormalizeByteRange(Some(header), size) == Ok(Some(r)) {
      ReadIsWritten(header, size);
      var spec :| Writes(header, spec);
      var x, y :| header == "bytes=" + x + "-" + y && WritesEnds(x, y, spec);
      WrittenIsRead(x, y, spec, size);
      ResolveCovers(spec, size, r);
    }
    if size > 0 && exists spec :: Writes(header, spec) && Covers(r, spec, size) {
      var spec :| Writes(header, spec) && Covers(r, spec, size);
      var x, y :| header == "bytes=" + x + "-" + y && WritesEnds(x, y, spec);
      WrittenIsRead(x, y, spec, size);
      ResolveCovers(spec, size, r);
    }
  }

  /** Every accepted range lies inside the file. */
  lemma AcceptedIsInside(header: string, size: int, r: ByteRange)
    requires header != "" && NormalizeByteRange(Some(header), size) == Ok(Some(r))
    ensures 0 <= r.start <= r.end < size
  {
    AcceptedIffMeant(header, size, r);
    var spec :| Writes(header, spec) && Covers(r, spec, size);
    assert Within(r, r.start) && Within(r, r.end);
  }

  lemma DigitsStripToThemselves(n: nat)
    ensures Number(Decimal(n), n)
  {
    var s := Decimal(n);
    assert IsDigit(s[0]) && IsDigit(s[|s| - 1]);
    StripNothing(s);
    ParsePrinted(n);
  }

  /** A printed range, read again for a file of any size: the same range, cut to the file. */
  lemma PrintedIsRead(r: ByteRange, size: int)
    requires 0 <= r.start <= r.end
    ensures NormalizeByteRange(Some(HeaderValue(r)), size)
         == if r.start < size then Ok(Some(ByteRange(r.start, Min(r.end, size - 1)))) else Err(InvalidByteRange(size))
  {
    if size > 0 {
      DigitsStripToThemselves(r.start);
      DigitsStripToThemselves(r.end);
      WrittenIsRead(Decimal(r.start), Decimal(r.end), FirstLast(r.start, r.end), size);
    } else {
      assert HeaderValue(r) != "";
    }
  }

  // ----- streaming -----

  const CHUNK_SIZE: nat := 65536

  /** An open file. Its length may have changed since its size was taken. */
  class FileHandle {
    const data: seq<byte>
    var position: nat

    constructor (data: seq<byte>)
      ensures this.data == data && position == 0
    {
      this.data, position := data, 0;
    }

    method Seek(offset: nat)
      modifies this
      ensures position == offset
    {
      position := offset;
    }

    /** Reads n bytes, or as many as are left. */
    method Read(n: nat) returns (chunk: seq<byte>)
      modifies this
      ensures chunk == Slice(data, old(position), old(position) + n)
      ensures position == old(position) + |chunk|
    {
      chunk := Slice(data, position, position + n);
      position := position + |chunk|;
    }
  }

  /** data[lo..hi], cut to the data. */
  function Slice(data: seq<byte>, lo: nat, hi: nat): seq<byte>
    requires lo <= hi
  {
    data[Min(lo, |data|)..Min(hi, |data|)]
  }

  lemma SliceNext(data: seq<byte>, a: nat, b: nat, c: nat)
    requires a <= b <= c
    ensures Slice(data, a, b) + Slice(data, b, c) == Slice(data, a, c)
  {
  }

  function Concat(chunks: seq<seq<byte>>): seq<byte> {
    if chunks == [] then [] else Concat(chunks[..|chunks| - 1]) + chunks[|chunks| - 1]
  }

  lemma ConcatNext(chunks: seq<seq<byte>>, chunk: seq<byte>)
    ensures Concat(chunks + [chunk]) == Concat(chunks) + chunk
  {
    assert (chunks + [chunk])[..|chunks|] == chunks;
  }

  /** The iterator of get_stream: the chunks are never empty, never long, and together they are the bytes. */
  method Chunks(data: seq<byte>, start: nat, length: nat) returns (chunks: seq<seq<byte>>)
    ensures Concat(chunks) == Slice(data, start, start + length)
    ensures forall i :: 0 <= i < |chunks| ==> 0 < |chunks[i]| <= CHUNK_SIZE
    ensures forall i :: 0 <= i < |chunks| - 1 ==> |chunks[i]| == CHUNK_SIZE
  {
    var handle := new FileHandle(data);
    handle.Seek(start);
    var remaining := length;
    chunks := [];
    while remaining > 0
      invariant 0 <= remaining <= length && handle.data == data && handle.position == start + length - remaining
      invariant Concat(chunks) == Slice(data, start, handle.position)
      invariant forall i :: 0 <= i < |chunks| ==> 0 < |chunks[i]| <= CHUNK_SIZE
      invariant forall i :: 0 <= i < |chunks| ==>
                  |chunks[i]| == CHUNK_SIZE || remaining == 0 || handle.position == |data|
      invariant forall i :: 0 <= i < |chunks| - 1 ==> |chunks[i]| == CHUNK_SIZE
    {
      ghost var position := handle.position;
      var chunk := handle.Read(Min(CHUNK_SIZE, remaining));
      if chunk == [] {
        assert handle.position >= |data|;
        assert Slice(data, start, handle.position) == Slice(data, start, start + length);
        break;
      }
      ConcatNext(chunks, chunk);
      SliceNext(data, start, position, position + |chunk|);
      assert chunk == Slice(data, position, position + |chunk|);
      remaining := remaining - |chunk|;
      chunks := chunks + [chunk];
    }
  }

  function ContentRange(range: ByteRange, size: nat): string
    requires 0 <= range.start && 0 <= range.end
  {
    "bytes " + Decimal(range.start) + "-" + Decimal(range.end) + "/" + Decimal(size)
  }

  datatype StorageStream = StorageStream(status: int, contentLength: nat, contentRange: Option<string>,
                                         body: seq<seq<byte>>)

  /** LocalFilesystemBackend.get_stream on a file whose size was size when it was asked for. */
  method GetStream(data: seq<byte>, size: nat, header: Option<string>)
    returns (r: Result<StorageStream, InvalidByteRange>)
    ensures r.Err? <==> NormalizeByteRange(header, size).Err?
    ensures r.Ok? && (header.None? || header.value == "") ==>
              r.value.status == 200 && r.value.contentRange == None && r.value.contentLength == size
              && Concat(r.value.body) == Slice(data, 0, size)
    ensures r.Ok? && header.Some? && header.value != "" ==>
              var range := NormalizeByteRange(header, size).value;
              range.Some? && 0 <= range.value.start <= range.value.end < size
              && r.value.status == 206
              && r.value.contentRange == Some(ContentRange(range.value, size))
              && r.value.contentLength == range.value.end + 1 - range.value.start
              && Concat(r.value.body) == Slice(data, range.value.start, range.value.end + 1)
    ensures r.Ok? ==> forall i :: 0 <= i < |r.value.body| ==> 0 < |r.value.body[i]| <= CHUNK_SIZE
  {
    match NormalizeByteRange(header, size) {
      case Err(e) => r := Err(e);
      case Ok(None) =>
        var body := Chunks(data, 0, size);
        r := Ok(StorageStream(200, size, None, body));
      case Ok(Some(range)) =>
        AcceptedIsInside(header.value, size, range);
        var length := range.end - range.start + 1;
        var body := Chunks(data, range.start, length);
        r := Ok(StorageStream(206, length, Some(ContentRange(range, size)), body));
    }
  }

  /** What stream_media asks the storage for: the header read for the recorded size, printed, read for the file. */
  function DoubleNormalised(header: Option<string>, recorded: int, size: int)
    : Result<Option<ByteRange>, InvalidByteRange>
  {
    match NormalizeByteRange(header, recorded)
    case Err(e) => Err(e)
    case Ok(None) => NormalizeByteRange(None, size)
    case Ok(Some(range)) =>
      if range.start < 0 || range.end < 0 then Err(InvalidByteRange(size))
      else NormalizeByteRange(Some(HeaderValue(range)), size)
  }

  ghost predicate TwiceIsOnce(recorded: int, size: int) {
    forall header :: DoubleNormalised(header, recorded, size) == NormalizeByteRange(header, recorded)
  }

  /** Reading twice is reading once, for every header, exactly when the recorded size is at most the file's, or not
      positive. */
  lemma DoubleNormalisedIffSizeRight(recorded: int, size: int)
    ensures TwiceIsOnce(recorded, size) <==> recorded <= 0 || recorded <= size
  {
    if recorded <= 0 || recorded <= size {
      forall header ensures DoubleNormalised(header, recorded, size) == NormalizeByteRange(header, recorded) {
        match NormalizeByteRange(header, recorded) {
          case Ok(Some(range)) =>
            AcceptedIsInside(header.value, recorded, range);
            PrintedIsRead(range, size);
          case _ =>
        }
      }
    } else {
      var whole := ByteRange(0, recorded - 1);
      PrintedIsRead(whole, recorded);
      PrintedIsRead(whole, size);
      var header := Some(HeaderValue(whole));
      assert DoubleNormalised(header, recorded, size) != NormalizeByteRange(header, recorded);
    }
  }
}
