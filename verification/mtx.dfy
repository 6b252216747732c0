/**
 * The Matrix Market reader and writer of src/io/mtx_file_format.cpp.
 *
 * `readFile` skips leading comment lines, reads the `nrow ncol nnzero`
 * header into its out-parameters, turns every later line into one
 * insertion at the 1-based row and column made 0-based, and packs the
 * tensor once at the end. `writeFile` emits four comment lines and the
 * header.
 *
 * The file is given as the lines `getline` returns. Converting a value
 * token is a parameter `stod`: it stands for `std::stod` together with the
 * conversion of the resulting `double` to the component's bytes, and
 * yields nothing when `std::stod` throws.
 */
module MatrixMarket {
  import opened Results
  import opened StorageModel
  import opened Streams
  import opened Tensors

  // ---------------------------------------------------------------------
  // The header phase
  // ---------------------------------------------------------------------

  /**
   * What `iss >> firstChar` leaves in `firstChar`: the first character
   * that is not white space. On a blank line the extraction fails and the
   * uninitialised variable keeps its indeterminate value, `junk`.
   */
  function FirstChar(line: string, junk: char): (c: char)
    ensures (exists k :: 0 <= k < |line| && !IsSpace(line[k])) ==> !IsSpace(c)
  {
    ExtractChar(Open(line), junk).1
  }

  /** The index of the first line from `i` on that is not a comment: the header line. */
  function HeaderIndexFrom(lines: seq<string>, junk: char, i: nat): (r: Option<nat>)
    requires i <= |lines|
    ensures r.None? <==> forall k :: i <= k < |lines| ==> FirstChar(lines[k], junk) == '%'
    ensures r.Some? ==> i <= r.value < |lines| && FirstChar(lines[r.value], junk) != '%'
    ensures r.Some? ==> forall k :: i <= k < r.value ==> FirstChar(lines[k], junk) == '%'
    decreases |lines| - i
  {
    if i == |lines| then None
    else if FirstChar(lines[i], junk) != '%' then Some(i)
    else HeaderIndexFrom(lines, junk, i + 1)
  }

  function HeaderIndex(lines: seq<string>, junk: char): Option<nat>
  {
    HeaderIndexFrom(lines, junk, 0)
  }

  /** `iss >> *nrow >> *ncol >> *nnzero` on a fresh stream over the header line. */
  function ParseHeader(line: string, nrow: int, ncol: int, nnzero: int): (int, int, int)
  {
    var r := ExtractInt(Open(line), nrow);
    var c := ExtractInt(r.0, ncol);
    var z := ExtractInt(c.0, nnzero);
    (r.1, c.1, z.1)
  }

  /** The values the out-parameters hold after the header phase; without a header line they keep what the caller passed. */
  function HeaderOf(lines: seq<string>, junk: char, nrow: int, ncol: int, nnzero: int): (r: (int, int, int))
    ensures HeaderIndex(lines, junk).None? ==> r == (nrow, ncol, nnzero)
  {
    match HeaderIndex(lines, junk)
    case None => (nrow, ncol, nnzero)
    case Some(h) => ParseHeader(lines[h], nrow, ncol, nnzero)
  }

  /** The lines after the header line, which the entry phase reads; none when there is no header. */
  function BodyLines(lines: seq<string>, junk: char): (body: seq<string>)
    ensures |body| <= |lines|
  {
    match HeaderIndex(lines, junk)
    case None => []
    case Some(h) => lines[h + 1..]
  }

  /**
   * The header loop of `readFile`: lines whose first non-blank character
   * is `%` are skipped; the first other line is parsed into the three
   * out-parameters and ends the loop.
   */
  method ReadHeader(lines: seq<string>, junk: char, nrow0: int, ncol0: int, nnzero0: int)
    returns (nrow: int, ncol: int, nnzero: int, next: nat)
    ensures (nrow, ncol, nnzero) == HeaderOf(lines, junk, nrow0, ncol0, nnzero0)
    ensures next <= |lines| && lines[next..] == BodyLines(lines, junk)
  {
    nrow, ncol, nnzero := nrow0, ncol0, nnzero0;
    next := 0;
    while next < |lines|
      invariant 0 <= next <= |lines|
      invariant forall k :: 0 <= k < next ==> FirstChar(lines[k], junk) == '%'
      invariant (nrow, ncol, nnzero) == (nrow0, ncol0, nnzero0)
    {
      var line := lines[next];
      next := next + 1;
      var iss := Open(line);
      var firstChar: char;
      iss, firstChar := ExtractChar(iss, junk).0, ExtractChar(iss, junk).1;
      if firstChar != '%' {
        assert HeaderIndex(lines, junk) == Some(next - 1);
        iss := Open(line);
        iss, nrow := ExtractInt(iss, nrow).0, ExtractInt(iss, nrow).1;
        iss, ncol := ExtractInt(iss, ncol).0, ExtractInt(iss, ncol).1;
        iss, nnzero := ExtractInt(iss, nnzero).0, ExtractInt(iss, nnzero).1;
        break;
      }
    }
    if next == |lines| && HeaderIndex(lines, junk).None? {
      assert lines[next..] == [];
    }
  }

  // ---------------------------------------------------------------------
  // The entry phase
  // ---------------------------------------------------------------------

  /** `rowind`, `colind` and `val`: declared once, before the loop, so a failed extraction keeps the previous line's value. */
  datatype EntryState = EntryState(row: int, col: int, val: string)

  /** `iss >> rowind >> colind >> val` on a fresh stream over one line. */
  function ParseEntry(line: string, st: EntryState): EntryState
  {
    var r := ExtractInt(Open(line), st.row);
    var c := ExtractInt(r.0, st.col);
    var v := ExtractToken(c.0, st.val);
    EntryState(r.1, c.1, v.1)
  }

  /** How one line moves the state on; `readFile` reads with `ParseEntry`. */
  type LineReader = (string, EntryState) -> EntryState

  /**
   * The state each line leaves, reading `lines` from state `st`: every
   * line starts from the state the line before it left.
   */
  function States(lines: seq<string>, st: EntryState, read: LineReader): (r: seq<EntryState>)
    ensures |r| == |lines|
    decreases |lines|
  {
    if lines == [] then []
    else
      var next := read(lines[0], st);
      [next] + States(lines[1..], next, read)
  }

  /** Line `k` starts from the state line `k - 1` left, or from `st` for the first line. */
  lemma {:induction false} StatesStep(lines: seq<string>, st: EntryState, read: LineReader, k: nat)
    requires k < |lines|
    ensures States(lines, st, read)[k] == read(lines[k], if k == 0 then st else States(lines, st, read)[k - 1])
    decreases k
  {
    var next := read(lines[0], st);
    assert States(lines, st, read) == [next] + States(lines[1..], next, read);
    if k > 0 {
      StatesStep(lines[1..], next, read, k - 1);
      assert lines[1..][k - 1] == lines[k];
    }
  }

  /**
   * `states` are the states `lines` leave, read from `st`: each line starts
   * from the state the line before it left.
   */
  ghost predicate Follows(lines: seq<string>, st: EntryState, read: LineReader, states: seq<EntryState>)
  {
    |states| == |lines| &&
    forall k :: 0 <= k < |states| ==> states[k] == read(lines[k], if k == 0 then st else states[k - 1])
  }

  /** Line `k` starts from the state line `k - 1` left. */
  lemma FollowsAt(lines: seq<string>, st: EntryState, read: LineReader, states: seq<EntryState>, k: nat)
    requires Follows(lines, st, read, states) && k < |states|
    ensures k < |lines|
    ensures states[k] == read(lines[k], if k == 0 then st else states[k - 1])
  {
  }

  /** `States` are the states the lines leave. */
  lemma StatesFollow(lines: seq<string>, st: EntryState, read: LineReader)
    ensures Follows(lines, st, read, States(lines, st, read))
  {
    forall k | 0 <= k < |lines|
      ensures States(lines, st, read)[k] == read(lines[k], if k == 0 then st else States(lines, st, read)[k - 1])
    {
      StatesStep(lines, st, read, k);
    }
  }

  /** The insertion a line leaving state `st` makes. */
  function InsertionOf(st: EntryState, stod: string -> Option<Value>): Event
    requires stod(st.val).Some?
  {
    Inserted([st.row - 1, st.col - 1], stod(st.val).value)
  }

  /**
   * How many lines the phase gets through: the values of the lines before
   * it all convert, and the line at it, if any, holds the first value that
   * does not (its `stod` throws and ends the phase).
   */
  function ConvertedPrefix(states: seq<EntryState>, stod: string -> Option<Value>): (n: nat)
    ensures n <= |states|
    ensures forall j :: 0 <= j < n ==> stod(states[j].val).Some?
    ensures n < |states| ==> stod(states[n].val).None?
  {
    if states == [] || stod(states[0].val).None? then 0
    else
      var n := ConvertedPrefix(states[1..], stod);
      assert forall j :: 1 <= j < n + 1 ==> states[j] == states[1..][j - 1];
      n + 1
  }

  /** The phase stops at the first line whose value does not convert. */
  lemma ConvertedPrefixStopsAt(states: seq<EntryState>, k: nat, stod: string -> Option<Value>)
    requires k < |states| && stod(states[k].val).None?
    requires forall j :: 0 <= j < k ==> stod(states[j].val).Some?
    ensures ConvertedPrefix(states, stod) == k
  {
  }

  /** The phase gets through every line exactly when every value converts. */
  lemma ConvertedPrefixAll(states: seq<EntryState>, stod: string -> Option<Value>)
    ensures ConvertedPrefix(states, stod) == |states| <==> forall j :: 0 <= j < |states| ==> stod(states[j].val).Some?
  {
  }

  /** The insertions of the first `k` lines, whose values all convert, in line order. */
  function InsertionsUpTo(states: seq<EntryState>, k: nat, stod: string -> Option<Value>): (r: seq<Event>)
    requires k <= |states| && forall j :: 0 <= j < k ==> stod(states[j].val).Some?
    ensures |r| == k
  {
    if k == 0 then [] else InsertionsUpTo(states, k - 1, stod) + [InsertionOf(states[k - 1], stod)]
  }

  /**
   * Line `j` of those the phase gets through inserts one entry, at its row
   * and column less one, with the value of the state it leaves.
   */
  lemma {:induction false} EveryBodyLineInserts(states: seq<EntryState>, k: nat, stod: string -> Option<Value>)
    requires k <= |states| && forall j :: 0 <= j < k ==> stod(states[j].val).Some?
    ensures forall j :: 0 <= j < k ==> InsertionsUpTo(states, k, stod)[j] == InsertionOf(states[j], stod)
  {
    if k > 0 {
      EveryBodyLineInserts(states, k - 1, stod);
    }
  }

  /** Counting one more record of `cs` units in a buffer holding whole records. */
  lemma UsedStep(used: nat, cs: nat, after: nat)
    requires cs > 0 && used % cs == 0 && after == used + cs
    ensures after % cs == 0 && after / cs == used / cs + 1
  {
    var q := used / cs;
    assert used == q * cs;
    assert used + cs == (q + 1) * cs;
    MulDiv(q + 1, cs);
  }

  lemma MulDiv(a: nat, cs: nat)
    requires cs > 0
    ensures (a * cs) / cs == a && (a * cs) % cs == 0
  {
    var d := (a * cs) / cs;
    var m := (a * cs) % cs;
    assert a * cs == d * cs + m;
    assert (a - d) * cs == a * cs - d * cs;
    MulBounds(a - d, cs);
  }

  lemma MulBounds(x: int, cs: nat)
    requires cs > 0
    ensures x >= 1 ==> x * cs >= cs
    ensures x <= -1 ==> x * cs + cs <= 0
  {
  }

  /**
   * `readFile`: the header phase, then one insertion per remaining line,
   * then one `pack`. The out-parameters are written even when a later
   * step throws.
   */
  method ReadFile(lines: seq<string>, junk: char, nrow0: int, ncol0: int, nnzero0: int,
                  rowind0: int, colind0: int, stod: string -> Option<Value>, tensor: TensorBase)
    returns (nrow: int, ncol: int, nnzero: int, outcome: Result<()>)
    requires tensor.Valid()
    requires tensor.coordinateBufferUsed % tensor.coordinateSize == 0
    requires tensor.coordinateBufferUsed / tensor.coordinateSize <= |tensor.coordinateBuffer|
    requires tensor.Order() == 0 ==> |tensor.coordinateBuffer| >= 1
    requires forall s :: stod(s).Some? ==> |stod(s).value| == tensor.ctype.GetNumBytes()
    modifies tensor`storage, tensor`coordinateBuffer, tensor`coordinateBufferUsed, tensor`log
    ensures (nrow, ncol, nnzero) == HeaderOf(lines, junk, nrow0, ncol0, nnzero0)
    ensures tensor.Valid()
    ensures var body := BodyLines(lines, junk);
      var states := States(body, EntryState(rowind0, colind0, ""), ParseEntry);
      var n := ConvertedPrefix(states, stod);
      if tensor.Order() == 2 then
        (outcome.Success? <==> n == |body|) &&
        tensor.log == old(tensor.log) + InsertionsUpTo(states, n, stod) + (if n == |body| then [Packed] else [])
      else
        (outcome.Success? <==> body == []) &&
        tensor.log == old(tensor.log) + (if body == [] then [Packed] else [])
    ensures outcome.Failure? ==> outcome.error.InvalidArgument? || outcome.error.UserError?
    ensures outcome.Success? && tensor.Order() > 0 ==>
      tensor.storage.PackedFrom? &&
      tensor.storage.call.numEntries == old(tensor.coordinateBufferUsed) / tensor.coordinateSize + |BodyLines(lines, junk)|
  {
    var next;
    nrow, ncol, nnzero, next := ReadHeader(lines, junk, nrow0, ncol0, nnzero0);
    outcome := ReadBody(lines[next..], rowind0, colind0, stod, tensor);
  }

  /** What `readFile` does after the header line: read the entries, then `pack` if none threw. */
  method ReadBody(body: seq<string>, rowind0: int, colind0: int, stod: string -> Option<Value>, tensor: TensorBase)
    returns (outcome: Result<()>)
    requires tensor.Valid()
    requires tensor.coordinateBufferUsed % tensor.coordinateSize == 0
    requires tensor.coordinateBufferUsed / tensor.coordinateSize <= |tensor.coordinateBuffer|
    requires tensor.Order() == 0 ==> |tensor.coordinateBuffer| >= 1
    requires forall s :: stod(s).Some? ==> |stod(s).value| == tensor.ctype.GetNumBytes()
    modifies tensor`storage, tensor`coordinateBuffer, tensor`coordinateBufferUsed, tensor`log
    ensures tensor.Valid()
    ensures var states := States(body, EntryState(rowind0, colind0, ""), ParseEntry);
      var n := ConvertedPrefix(states, stod);
      if tensor.Order() == 2 then
        (outcome.Success? <==> n == |body|) &&
        tensor.log == old(tensor.log) + InsertionsUpTo(states, n, stod) + (if n == |body| then [Packed] else [])
      else
        (outcome.Success? <==> body == []) &&
        tensor.log == old(tensor.log) + (if body == [] then [Packed] else [])
    ensures outcome.Failure? ==> outcome.error.InvalidArgument? || outcome.error.UserError?
    ensures outcome.Success? && tensor.Order() > 0 ==>
      tensor.storage.PackedFrom? &&
      tensor.storage.call.numEntries == old(tensor.coordinateBufferUsed) / tensor.coordinateSize + |body|
  {
    StatesFollow(body, EntryState(rowind0, colind0, ""), ParseEntry);
    outcome := ReadEntries(body, rowind0, colind0, ParseEntry, stod, tensor,
                           States(body, EntryState(rowind0, colind0, ""), ParseEntry));
    if outcome.Success? {
      tensor.Pack();
    }
  }

  /**
   * The loop of `readFile` over the lines after the header: each line is
   * read into `rowind`, `colind` and `val` (by `read`; `ghost states` are
   * the states the lines leave), the value is converted, and the entry is
   * inserted at `(rowind-1, colind-1)`.
   */
  method ReadEntries(body: seq<string>, rowind0: int, colind0: int,
                     read: LineReader, stod: string -> Option<Value>, tensor: TensorBase, ghost states: seq<EntryState>)
    returns (outcome: Result<()>)
    requires Follows(body, EntryState(rowind0, colind0, ""), read, states)
    requires tensor.Valid()
    requires tensor.coordinateBufferUsed % tensor.coordinateSize == 0
    requires tensor.coordinateBufferUsed / tensor.coordinateSize <= |tensor.coordinateBuffer|
    requires forall s :: stod(s).Some? ==> |stod(s).value| == tensor.ctype.GetNumBytes()
    modifies tensor`coordinateBuffer, tensor`coordinateBufferUsed, tensor`log
    ensures tensor.Valid()
    ensures var n := ConvertedPrefix(states, stod);
      if tensor.Order() == 2 then
        (outcome.Success? <==> n == |states|) && tensor.log == old(tensor.log) + InsertionsUpTo(states, n, stod)
      else
        (outcome.Success? <==> states == []) && tensor.log == old(tensor.log) &&
        tensor.coordinateBuffer == old(tensor.coordinateBuffer)
    ensures outcome.Failure? ==> outcome.error.InvalidArgument? || outcome.error.UserError?
    ensures outcome.Success? ==>
      tensor.coordinateBufferUsed % tensor.coordinateSize == 0 &&
      tensor.coordinateBufferUsed / tensor.coordinateSize == old(tensor.coordinateBufferUsed) / tensor.coordinateSize + |states| &&
      tensor.coordinateBufferUsed / tensor.coordinateSize <= |tensor.coordinateBuffer|
  {
    ghost var init := EntryState(rowind0, colind0, "");
    ghost var used0 := tensor.coordinateBufferUsed;
    ghost var cs := tensor.coordinateSize;
    var rowind, colind := rowind0, colind0;
    var val: string := "";
    var i := 0;
    while i < |body|
      invariant 0 <= i <= |body|
      invariant EntryState(rowind, colind, val) == if i == 0 then init else states[i - 1]
      invariant forall j :: 0 <= j < i ==> stod(states[j].val).Some?
      invariant tensor.log == old(tensor.log) + InsertionsUpTo(states, i, stod)
      invariant i == 0 ==> tensor.coordinateBuffer == old(tensor.coordinateBuffer)
      invariant tensor.Order() != 2 ==> i == 0
      invariant tensor.Valid() && tensor.coordinateSize == cs
      invariant tensor.coordinateBufferUsed % cs == 0
      invariant tensor.coordinateBufferUsed / cs == used0 / cs + i
      invariant tensor.coordinateBufferUsed / cs <= |tensor.coordinateBuffer|
    {
      var st := EntryState(rowind, colind, val);
      FollowsAt(body, init, read, states, i);
      var parsed;
      parsed, outcome := ReadEntry(body[i], st, read, stod, tensor);
      rowind, colind, val := parsed.row, parsed.col, parsed.val;
      if outcome.Failure? {
        if tensor.Order() == 2 {
          ConvertedPrefixStopsAt(states, i, stod);
        }
        return;
      }
      i := i + 1;
    }
    ConvertedPrefixAll(states, stod);
    return Success(());
  }

  /** One pass of that loop: read the line, convert the value, insert the entry. */
  method ReadEntry(line: string, st: EntryState, read: LineReader, stod: string -> Option<Value>, tensor: TensorBase)
    returns (parsed: EntryState, outcome: Result<()>)
    requires tensor.Valid()
    requires tensor.coordinateBufferUsed % tensor.coordinateSize == 0
    requires tensor.coordinateBufferUsed / tensor.coordinateSize <= |tensor.coordinateBuffer|
    requires forall s :: stod(s).Some? ==> |stod(s).value| == tensor.ctype.GetNumBytes()
    modifies tensor`coordinateBuffer, tensor`coordinateBufferUsed, tensor`log
    ensures parsed == read(line, st)
    ensures tensor.Valid()
    ensures outcome.Success? <==> stod(parsed.val).Some? && tensor.Order() == 2
    ensures outcome.Failure? ==>
      unchanged(tensor) &&
      (if stod(parsed.val).None? then outcome.error.InvalidArgument? else outcome.error.UserError?)
    ensures outcome.Success? ==>
      tensor.log == old(tensor.log) + [InsertionOf(parsed, stod)] &&
      tensor.coordinateBufferUsed % tensor.coordinateSize == 0 &&
      tensor.coordinateBufferUsed / tensor.coordinateSize == old(tensor.coordinateBufferUsed) / tensor.coordinateSize + 1 &&
      tensor.coordinateBufferUsed / tensor.coordinateSize <= |tensor.coordinateBuffer|
  {
    parsed := read(line, st);
    var value := stod(parsed.val);
    if value.None? {
      return parsed, Failure(InvalidArgument("stod"));
    }
    ghost var usedBefore := tensor.coordinateBufferUsed;
    outcome := tensor.Insert([parsed.row - 1, parsed.col - 1], value.value);
    if outcome.Success? {
      UsedStep(usedBefore, tensor.coordinateSize, tensor.coordinateBufferUsed);
      InsertionAt(parsed, stod, parsed.row, parsed.col, value.value);
    }
  }

  lemma InsertionAt(st: EntryState, stod: string -> Option<Value>, row: int, col: int, v: Value)
    requires row == st.row && col == st.col && stod(st.val) == Some(v)
    ensures Inserted([row - 1, col - 1], v) == InsertionOf(st, stod)
  {
  }

  /** A well-formed entry line `r c v` yields row `r`, column `c` and value token `v`: the insertion is at `(r-1, c-1)`. */
  lemma EntryLineIsOneBased(r: int, c: int, v: string, st: EntryState)
    requires |v| > 0 && forall k :: 0 <= k < |v| ==> !IsSpace(v[k])
    ensures ParseEntry(IntToString(r) + " " + IntToString(c) + " " + v, st) == EntryState(r, c, v)
  {
    EntryLineReads(IntToString(r), IntToString(c), v, r, c, st);
  }

  lemma EntryLineReads(a: string, b: string, v: string, r: int, c: int, st: EntryState)
    requires Numeral(a, r) && Numeral(b, c)
    requires |v| > 0 && forall k :: 0 <= k < |v| ==> !IsSpace(v[k])
    ensures ParseEntry(a + " " + b + " " + v, st) == EntryState(r, c, v)
  {
    var line := a + " " + b + " " + v;
    var p := |a|;
    var m := p + 1 + |b|;
    assert line[..p] == a && line[p] == ' ';
    assert line[p + 1..m] == b && line[m] == ' ';
    assert |line| == m + 1 + |v| && line[m + 1..] == v;
    EntryFields(line, a, b, v, r, c, st, p, m);
  }

  /** An entry line laid out as number, space, number, space, token. */
  lemma EntryFields(line: string, a: string, b: string, v: string, r: int, c: int, st: EntryState, p: nat, m: nat)
    requires Numeral(a, r) && Numeral(b, c)
    requires |v| > 0 && forall k :: 0 <= k < |v| ==> !IsSpace(v[k])
    requires p == |a| && m == p + 1 + |b| && |line| == m + 1 + |v|
    requires line[..p] == a && line[p] == ' '
    requires line[p + 1..m] == b && line[m] == ' '
    requires line[m + 1..] == v
    ensures ParseEntry(line, st) == EntryState(r, c, v)
  {
    assert forall k :: p <= k < p + 1 ==> IsSpace(line[k]);
    assert line[p + 1..m] == b && (m == |line| || line[m] == ' ');
    LastToken(line, m, v, st.val);
    NextNumber(line, p, p + 1, m, b, c, st.col);
    FirstNumber(line, a, r, st.row);
    ParseEntrySteps(line, st, Stream(line, p, false), Stream(line, m, false), r, c, v);
  }

  /** A line that starts with the text `s` of `n`, followed by a space. */
  lemma FirstNumber(line: string, s: string, n: int, current: int)
    requires Numeral(s, n) && |s| < |line|
    requires line[..|s|] == s && line[|s|] == ' '
    ensures ExtractInt(Stream(line, 0, false), current) == (Stream(line, |s|, false), n)
  {
    assert line[0..|s|] == line[..|s|];
    ExtractIntReadsNumeral(line, 0, 0, s, n, current);
  }

  /** White space from `start` to `p`, then the text `s` of `n` up to `e`, then white space or the end of the line. */
  lemma NextNumber(line: string, start: nat, p: nat, e: nat, s: string, n: int, current: int)
    requires Numeral(s, n) && start < p && e == p + |s| && e <= |line|
    requires forall k :: start <= k < p ==> IsSpace(line[k])
    requires line[p..e] == s
    requires e == |line| || line[e] == ' '
    ensures ExtractInt(Stream(line, start, false), current) == (Stream(line, e, false), n)
  {
    ExtractIntReadsNumeral(line, start, p, s, n, current);
  }

  /** The last field of a line: one space, then the token to the end. */
  lemma LastToken(line: string, start: nat, v: string, current: string)
    requires |v| > 0 && forall k :: 0 <= k < |v| ==> !IsSpace(v[k])
    requires |line| == start + 1 + |v| && line[start] == ' ' && line[start + 1..] == v
    ensures ExtractToken(Stream(line, start, false), current).1 == v
  {
    assert line[start + 1..start + 1 + |v|] == line[start + 1..];
    ExtractTokenReadsToken(line, start, start + 1, v, current);
  }

  lemma ParseEntrySteps(line: string, st: EntryState, s1: Stream, s2: Stream, r: int, c: int, v: string)
    requires s1.Valid() && s2.Valid()
    requires ExtractInt(Stream(line, 0, false), st.row) == (s1, r)
    requires ExtractInt(s1, st.col) == (s2, c)
    requires ExtractToken(s2, st.val).1 == v
    ensures ParseEntry(line, st) == EntryState(r, c, v)
  {
  }

  /**
   * Comment lines are skipped only before the header: after it, a line
   * starting with `%` still inserts. Its row fails to parse and becomes 0;
   * the column and value keep the previous line's, so the insertion lands
   * at row -1.
   */
  lemma CommentAfterHeaderInserts(line: string, st: EntryState)
    requires |line| > 0 && line[0] == '%'
    ensures ParseEntry(line, st) == EntryState(0, st.col, st.val)
  {
    assert SkipSpace(line, 0) == 0;
    assert DigitsEnd(line, 0) == 0;
  }

  // ---------------------------------------------------------------------
  // The writer
  // ---------------------------------------------------------------------

  const Rule: string := "%-----------------------------------"
  const Banner: string := "% MTX matrix file generated by taco "

  /** The comment line naming the matrix. */
  function NameLine(name: string): (line: string)
    ensures |line| > 0 && line[0] == '%'
    ensures '\n' !in name ==> '\n' !in line
  {
    var line := "% name: " + name;
    assert forall k :: 8 <= k < |line| ==> line[k] == name[k - 8];
    line
  }

  /** The header line `writeFile` emits: the three numbers, with two spaces before the last. */
  function HeaderLine(nrow: int, ncol: int, nnzero: int): (line: string)
    ensures '\n' !in line && |line| > 0 && line[0] != '%' && !IsSpace(line[0])
  {
    NumberHasNoBreak(nrow);
    NumberHasNoBreak(ncol);
    NumberHasNoBreak(nnzero);
    HeaderShape(IntToString(nrow), IntToString(ncol), IntToString(nnzero));
    IntToString(nrow) + " " + IntToString(ncol) + " " + " " + IntToString(nnzero)
  }

  lemma HeaderShape(a: string, b: string, d: string)
    requires |a| > 0 && '\n' !in a && '\n' !in b && '\n' !in d
    ensures var line := a + " " + b + " " + " " + d; '\n' !in line && line[0] == a[0]
  {
  }

  /** The decimal text of a number holds no line break, and starts with neither `%` nor white space. */
  lemma NumberHasNoBreak(n: int)
    ensures '\n' !in IntToString(n) && IntToString(n)[0] != '%' && !IsSpace(IntToString(n)[0])
  {
    var s := IntToString(n);
    if n < 0 {
      forall k | 0 <= k < |s| ensures s[k] != '\n' {
        if k > 0 { assert s[k] == s[1..][k - 1]; }
      }
    } else {
      assert IsDigit(s[0]);
    }
  }

  /** The five lines `writeFile` emits. */
  function WrittenLines(name: string, nrow: int, ncol: int, nnzero: int): seq<string>
  {
    [Rule, Banner, NameLine(name), Rule, HeaderLine(nrow, ncol, nnzero)]
  }

  /** `writeFile`: four comment lines, the third naming the matrix, then the header line, each ended by `std::endl`. */
  method WriteFile(name: string, nrow: int, ncol: int, nnzero: int) returns (text: string)
    ensures text == JoinLines(WrittenLines(name, nrow, ncol, nnzero))
  {
    text := "";
    text := text + Rule + "\n";
    text := text + Banner + "\n";
    text := text + ("% name: " + name) + "\n";
    text := text + Rule + "\n";
    text := text + (IntToString(nrow) + " " + IntToString(ncol) + " " + " " + IntToString(nnzero)) + "\n";
    FiveLines(Rule, Banner, NameLine(name), Rule, HeaderLine(nrow, ncol, nnzero));
  }

  lemma FiveLines(l1: string, l2: string, l3: string, l4: string, l5: string)
    ensures "" + l1 + "\n" + l2 + "\n" + l3 + "\n" + l4 + "\n" + l5 + "\n" == JoinLines([l1, l2, l3, l4, l5])
  {
    JoinLinesSnoc([], l1);
    assert [] + [l1] == [l1];
    JoinLinesSnoc([l1], l2);
    assert [l1] + [l2] == [l1, l2];
    JoinLinesSnoc([l1, l2], l3);
    assert [l1, l2] + [l3] == [l1, l2, l3];
    JoinLinesSnoc([l1, l2, l3], l4);
    assert [l1, l2, l3] + [l4] == [l1, l2, l3, l4];
    JoinLinesSnoc([l1, l2, l3, l4], l5);
    assert [l1, l2, l3, l4] + [l5] == [l1, l2, l3, l4, l5];
  }

  /**
   * Reading back what `writeFile` wrote finds its five lines, skips the
   * four comment lines, recovers the header it was given, and leaves no
   * entry lines.
   */
  lemma WriteThenRead(name: string, nrow: int, ncol: int, nnzero: int, junk: char, r: int, c: int, z: int)
    requires '\n' !in name
    ensures GetLines(JoinLines(WrittenLines(name, nrow, ncol, nnzero))) == WrittenLines(name, nrow, ncol, nnzero)
    ensures HeaderIndex(WrittenLines(name, nrow, ncol, nnzero), junk) == Some(4)
    ensures HeaderOf(WrittenLines(name, nrow, ncol, nnzero), junk, r, c, z) == (nrow, ncol, nnzero)
    ensures BodyLines(WrittenLines(name, nrow, ncol, nnzero), junk) == []
  {
    WrittenLinesReadBack(name, nrow, ncol, nnzero);
    WrittenHeaderIsFound(name, nrow, ncol, nnzero, junk);
    ReadsWrittenHeader(nrow, ncol, nnzero, r, c, z);
  }

  lemma WrittenLinesReadBack(name: string, nrow: int, ncol: int, nnzero: int)
    requires '\n' !in name
    ensures GetLines(JoinLines(WrittenLines(name, nrow, ncol, nnzero))) == WrittenLines(name, nrow, ncol, nnzero)
  {
    RulesHaveNoBreak();
    var lines := WrittenLines(name, nrow, ncol, nnzero);
    assert forall k :: 0 <= k < |lines| ==> '\n' !in lines[k];
    GetLinesJoinLines(lines);
  }

  lemma WrittenHeaderIsFound(name: string, nrow: int, ncol: int, nnzero: int, junk: char)
    ensures HeaderIndex(WrittenLines(name, nrow, ncol, nnzero), junk) == Some(4)
  {
    var lines := WrittenLines(name, nrow, ncol, nnzero);
    CommentFirstChar(Rule, junk);
    CommentFirstChar(Banner, junk);
    CommentFirstChar(NameLine(name), junk);
    assert SkipSpace(lines[4], 0) == 0;
    HeaderAfterComments(lines, junk);
  }

  lemma RulesHaveNoBreak()
    ensures '\n' !in Rule && '\n' !in Banner
  {
  }

  /** A line starting with `%` is a comment to the header loop. */
  lemma CommentFirstChar(line: string, junk: char)
    requires |line| > 0 && line[0] == '%'
    ensures FirstChar(line, junk) == '%'
  {
    assert SkipSpace(line, 0) == 0;
  }

  /** Four comment lines and then a line that is not one: the header is the fifth line. */
  lemma HeaderAfterComments(lines: seq<string>, junk: char)
    requires |lines| == 5 && forall k :: 0 <= k < 4 ==> FirstChar(lines[k], junk) == '%'
    requires FirstChar(lines[4], junk) != '%'
    ensures HeaderIndex(lines, junk) == Some(4)
  {
    assert HeaderIndexFrom(lines, junk, 4) == Some(4);
    assert HeaderIndexFrom(lines, junk, 3) == Some(4);
    assert HeaderIndexFrom(lines, junk, 2) == Some(4);
    assert HeaderIndexFrom(lines, junk, 1) == Some(4);
  }

  /** The header line `writeFile` emits parses back to its three numbers. */
  lemma ReadsWrittenHeader(nrow: int, ncol: int, nnzero: int, r: int, c: int, z: int)
    ensures ParseHeader(HeaderLine(nrow, ncol, nnzero), r, c, z) == (nrow, ncol, nnzero)
  {
    HeaderLineReads(IntToString(nrow), IntToString(ncol), IntToString(nnzero), nrow, ncol, nnzero, r, c, z);
  }

  lemma HeaderLineReads(a: string, b: string, d: string, nrow: int, ncol: int, nnzero: int, r: int, c: int, z: int)
    requires Numeral(a, nrow) && Numeral(b, ncol) && Numeral(d, nnzero)
    ensures ParseHeader(a + " " + b + " " + " " + d, r, c, z) == (nrow, ncol, nnzero)
  {
    var header := a + " " + b + " " + " " + d;
    var p := |a|;
    var m := p + 1 + |b|;
    assert header[..p] == a && header[p] == ' ';
    assert header[p + 1..m] == b && header[m] == ' ' && header[m + 1] == ' ';
    assert |header| == m + 2 + |d| && header[m + 2..|header|] == d;
    HeaderFields(header, a, b, d, nrow, ncol, nnzero, r, c, z, p, m);
  }

  /** A header line laid out as number, space, number, two spaces, number. */
  lemma HeaderFields(line: string, a: string, b: string, d: string, nrow: int, ncol: int, nnzero: int,
                     r: int, c: int, z: int, p: nat, m: nat)
    requires Numeral(a, nrow) && Numeral(b, ncol) && Numeral(d, nnzero)
    requires p == |a| && m == p + 1 + |b| && |line| == m + 2 + |d|
    requires line[..p] == a && line[p] == ' '
    requires line[p + 1..m] == b && line[m] == ' ' && line[m + 1] == ' '
    requires line[m + 2..|line|] == d
    ensures ParseHeader(line, r, c, z) == (nrow, ncol, nnzero)
  {
    assert forall k :: m <= k < m + 2 ==> IsSpace(line[k]);
    assert forall k :: p <= k < p + 1 ==> IsSpace(line[k]);
    assert line[p + 1..m] == b && (m == |line| || line[m] == ' ');
    NextNumber(line, m, m + 2, |line|, d, nnzero, z);
    NextNumber(line, p, p + 1, m, b, ncol, c);
    FirstNumber(line, a, nrow, r);
    ParseHeaderSteps(line, Stream(line, p, false), Stream(line, m, false), r, c, z, nrow, ncol, nnzero);
  }

  lemma ParseHeaderSteps(line: string, s1: Stream, s2: Stream, r: int, c: int, z: int, nrow: int, ncol: int, nnzero: int)
    requires s1.Valid() && s2.Valid()
    requires ExtractInt(Stream(line, 0, false), r) == (s1, nrow)
    requires ExtractInt(s1, c) == (s2, ncol)
    requires ExtractInt(s2, z).1 == nnzero
    ensures ParseHeader(line, r, c, z) == (nrow, ncol, nnzero)
  {
  }
}
