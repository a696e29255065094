/** `diag logs`: gathering the newest records page by page from the service, and reading the
    tail of a log file through a window at its end. */
module ServiceLogs {
  import opened Basics

  const MAX_PAGE_SIZE: nat := 200

  function Reversed<T>(s: seq<T>): (r: seq<T>)
    ensures |r| == |s| && forall i :: 0 <= i < |s| ==> r[i] == s[|s| - 1 - i]
  {
    if s == [] then [] else Reversed(s[1..]) + [s[0]]
  }

  // ── Paging ───────────────────────────────────────────────────────────────

  datatype Request<C> = Request(cursor: Option<C>, pageSize: nat)

  datatype FetchError = Ipc | Unreadable

  datatype Answer<C> = Page(items: seq<string>, next: Option<C>) | Refused(error: FetchError)

  /** What the service says to the n-th request of one fetch; nothing binds it to be sensible. */
  type Source<!C> = (nat, Request<C>) -> Answer<C>

  function PageSize(wanted: nat): nat { Min(wanted, MAX_PAGE_SIZE) }

  /** Newest-first records from the n-th request on. */
  function Gather<C>(source: Source<C>, tail: nat, n: nat, cursor: Option<C>, got: seq<string>): Result<seq<string>, FetchError>
    decreases tail - |got|
  {
    if |got| >= tail then Ok(got)
    else
      var wanted := tail - |got|;
      match source(n, Request(cursor, PageSize(wanted)))
      case Refused(e) => Err(e)
      case Page(items, next) =>
        var more := got + items[..Min(wanted, |items|)];
        if items == [] || next.None? then Ok(more) else Gather(source, tail, n + 1, next, more)
  }

  function Turned(r: Result<seq<string>, FetchError>): Result<seq<string>, FetchError> {
    if r.Ok? then Ok(Reversed(r.value)) else r
  }

  /** The newest `tail` records, in reading order, from any source, in at most `tail` calls. */
  method Fetch<C(0)>(source: Source<C>, tail: nat) returns (r: Result<seq<string>, FetchError>, calls: nat)
    ensures r == Turned(Gather(source, tail, 0, None, []))
    ensures calls <= tail
    ensures r.Ok? ==> |r.value| <= tail
  {
    var newestFirst: seq<string> := [];
    var cursor: Option<C> := None;
    calls := 0;
    while |newestFirst| < tail
      invariant |newestFirst| <= tail && calls <= |newestFirst|
      invariant Gather(source, tail, calls, cursor, newestFirst) == Gather(source, tail, 0, None, [])
      decreases tail - |newestFirst|
    {
      var wanted := tail - |newestFirst|;
      var answer := source(calls, Request(cursor, PageSize(wanted)));
      calls := calls + 1;
      if answer.Refused? { return Err(answer.error), calls; }
      newestFirst := newestFirst + answer.items[..Min(wanted, |answer.items|)];
      if answer.items == [] || answer.next.None? { return Ok(Reversed(newestFirst)), calls; }
      cursor := answer.next;
    }
    r := Ok(Reversed(newestFirst));
  }

  /** The place in the record list a cursor stands for. */
  function Start<C>(cursor: Option<C>, place: C -> nat): nat {
    if cursor.None? then 0 else place(cursor.value)
  }

  /** A pager over `records`, newest first: each page continues where its cursor stands, is
      empty only past the end, and the last one only says so at the end. */
  ghost predicate Honest<C(!new)>(source: Source<C>, records: seq<string>, place: C -> nat) {
    forall n: nat, request: Request<C> :: request.pageSize >= 1 ==>
      HonestPage(source(n, request), Start(request.cursor, place), records, place)
  }

  ghost predicate HonestPage<C(!new)>(answer: Answer<C>, start: nat, records: seq<string>, place: C -> nat) {
    start <= |records| ==>
      && answer.Page?
      && start + |answer.items| <= |records|
      && answer.items == records[start..start + |answer.items|]
      && (answer.items == [] || answer.next.None? ==> start + |answer.items| == |records|)
      && (answer.next.Some? ==> place(answer.next.value) == start + |answer.items|)
  }

  lemma {:induction false} GatherIsPrefix<C(!new)>(source: Source<C>, tail: nat, n: nat, cursor: Option<C>,
                                                   got: seq<string>, records: seq<string>, place: C -> nat)
    requires Honest(source, records, place)
    requires |got| <= tail && |got| <= |records| && got == records[..|got|] && Start(cursor, place) == |got|
    ensures Gather(source, tail, n, cursor, got) == Ok(records[..Min(tail, |records|)])
    decreases tail - |got|
  {
    if |got| < tail {
      var wanted := tail - |got|;
      var request := Request(cursor, PageSize(wanted));
      var answer := source(n, request);
      assert HonestPage(answer, Start(request.cursor, place), records, place);
      var taken := answer.items[..Min(wanted, |answer.items|)];
      var more := got + taken;
      assert more == records[..|more|];
      if !(answer.items == [] || answer.next.None?) {
        if |more| < tail {
          GatherIsPrefix(source, tail, n + 1, answer.next, more, records, place);
        }
      }
    }
  }

  /** Against an honest pager the page sizes do not show: the newest records, in order. */
  lemma FetchIsTheNewest<C(!new)>(source: Source<C>, tail: nat, records: seq<string>, place: C -> nat)
    requires Honest(source, records, place)
    ensures Turned(Gather(source, tail, 0, None, [])) == Ok(Reversed(records[..Min(tail, |records|)]))
  {
    GatherIsPrefix(source, tail, 0, None, [], records, place);
  }

  // ── The windowed tail ────────────────────────────────────────────────────

  type Byte = b: int | 0 <= b < 256
  const NEWLINE: Byte := 10
  const RETURN: Byte := 13

  function FirstNewline(s: seq<Byte>): (r: Option<nat>)
    ensures r.None? <==> NEWLINE !in s
    ensures r.Some? ==> r.value < |s| && s[r.value] == NEWLINE && NEWLINE !in s[..r.value]
  {
    if s == [] then None
    else if s[0] == NEWLINE then Some(0)
    else
      match FirstNewline(s[1..])
      case None => None
      case Some(i) =>
        assert s[..i + 1] == [s[0]] + s[1..][..i];
        Some(i + 1)
  }

  function WithoutReturn(line: seq<Byte>): seq<Byte> {
    if line != [] && line[|line| - 1] == RETURN then line[..|line| - 1] else line
  }

  /** The lines of a text; the end of the last one is optional. */
  function Lines(s: seq<Byte>): seq<seq<Byte>>
    decreases |s|
  {
    if s == [] then []
    else
      match FirstNewline(s)
      case None => [s]
      case Some(i) => [WithoutReturn(s[..i])] + Lines(s[i + 1..])
  }

  lemma {:induction false} FirstNewlineOfPrefix(a: seq<Byte>, b: seq<Byte>)
    requires NEWLINE in a
    ensures FirstNewline(a + b) == FirstNewline(a)
  {
    if a[0] != NEWLINE {
      FirstNewlineOfPrefix(a[1..], b);
      assert (a + b)[1..] == a[1..] + b;
    }
  }

  lemma LinesFirst(s: seq<Byte>, i: nat)
    requires FirstNewline(s) == Some(i)
    ensures i < |s| && Lines(s) == [WithoutReturn(s[..i])] + Lines(s[i + 1..])
  {
  }

  lemma PartsAfter(a: seq<Byte>, b: seq<Byte>, i: nat)
    requires i < |a|
    ensures (a + b)[..i] == a[..i] && (a + b)[i + 1..] == a[i + 1..] + b
  {
  }

  lemma Joined<T>(first: T, a: seq<T>, b: seq<T>)
    ensures ([first] + a) + b == [first] + (a + b)
  {
  }

  lemma LinesSplitAfter(a: seq<Byte>, b: seq<Byte>, i: nat, rest: seq<Byte>)
    requires FirstNewline(a) == Some(i) && FirstNewline(a + b) == Some(i) && i < |a| && rest == a[i + 1..]
    requires Lines(rest + b) == Lines(rest) + Lines(b)
    ensures Lines(a + b) == Lines(a) + Lines(b)
  {
    var line := WithoutReturn(a[..i]);
    assert Lines(a) == [line] + Lines(rest) by { LinesFirst(a, i); }
    assert Lines(a + b) == [line] + Lines(rest + b) by {
      PartsAfter(a, b, i);
      LinesFirst(a + b, i);
    }
    Joined(line, Lines(rest), Lines(b));
  }

  /** A text cut after a line's end has the lines of both parts. */
  lemma {:induction false} LinesSplit(a: seq<Byte>, b: seq<Byte>)
    requires a != [] ==> a[|a| - 1] == NEWLINE
    ensures Lines(a + b) == Lines(a) + Lines(b)
    decreases |a|
  {
    if a == [] {
      assert a + b == b;
    } else {
      FirstNewlineOfPrefix(a, b);
      var i := FirstNewline(a).value;
      var rest := a[i + 1..];
      LinesSplit(rest, b);
      LinesSplitAfter(a, b, i, rest);
    }
  }

  function NonBlank(lines: seq<seq<Byte>>, blank: seq<Byte> -> bool): seq<seq<Byte>> {
    if lines == [] then []
    else (if blank(lines[0]) then [] else [lines[0]]) + NonBlank(lines[1..], blank)
  }

  lemma {:induction false} NonBlankSplit(a: seq<seq<Byte>>, b: seq<seq<Byte>>, blank: seq<Byte> -> bool)
    ensures NonBlank(a + b, blank) == NonBlank(a, blank) + NonBlank(b, blank)
  {
    if a == [] {
      assert a + b == b;
    } else {
      assert (a + b)[1..] == a[1..] + b;
      NonBlankSplit(a[1..], b, blank);
    }
  }

  function Last<T>(s: seq<T>, n: nat): seq<T> { if |s| > n then s[|s| - n..] else s }

  /** The last `n` lines that hold something, in reading order. */
  function Tail(text: seq<Byte>, n: nat, blank: seq<Byte> -> bool): seq<seq<Byte>> {
    Last(NonBlank(Lines(text), blank), n)
  }

  method TailLines(text: seq<Byte>, n: nat, blank: seq<Byte> -> bool) returns (all: seq<seq<Byte>>)
    ensures all == Tail(text, n, blank)
  {
    var lines := Lines(text);
    all := [];
    for i := 0 to |lines|
      invariant all == NonBlank(lines[..i], blank)
    {
      assert lines[..i + 1] == lines[..i] + [lines[i]];
      NonBlankSplit(lines[..i], [lines[i]], blank);
      if !blank(lines[i]) { all := all + [lines[i]]; }
    }
    assert lines[..|lines|] == lines;
    if |all| > n { all := all[|all| - n..]; }
  }

  /** What is read of a file: all of it, or what follows the first line's end in the window. */
  function Window(file: seq<Byte>, size: nat): seq<Byte> {
    if |file| <= size then file
    else
      var window := file[|file| - size..];
      match FirstNewline(window)
      case Some(i) => window[i + 1..]
      case None => window
  }

  lemma WindowCutsAtALine(file: seq<Byte>, size: nat) returns (head: seq<Byte>)
    requires |file| > size && NEWLINE in file[|file| - size..]
    ensures file == head + Window(file, size) && head != [] && head[|head| - 1] == NEWLINE
  {
    var window := file[|file| - size..];
    var i := FirstNewline(window).value;
    head := file[..|file| - size + i + 1];
    assert window[i + 1..] == file[|file| - size + i + 1..];
  }

  /** The lines the window holds are the file's last ones. */
  lemma WindowHoldsTheLastLines(file: seq<Byte>, size: nat, blank: seq<Byte> -> bool) returns (before: seq<seq<Byte>>)
    requires |file| > size && NEWLINE in file[|file| - size..]
    ensures NonBlank(Lines(file), blank) == before + NonBlank(Lines(Window(file, size)), blank)
  {
    var head := WindowCutsAtALine(file, size);
    LinesSplit(head, Window(file, size));
    NonBlankSplit(Lines(head), Lines(Window(file, size)), blank);
    before := NonBlank(Lines(head), blank);
  }

  /** The windowed tail is a suffix of the whole file's, and the same exactly when the window
      holds enough lines, or every line there is. */
  lemma WindowedTailIsASuffix(file: seq<Byte>, size: nat, n: nat, blank: seq<Byte> -> bool)
    requires |file| > size ==> NEWLINE in file[|file| - size..]
    ensures var whole, part := Tail(file, n, blank), Tail(Window(file, size), n, blank);
            && |part| <= |whole| && part == whole[|whole| - |part|..]
            && (part == whole <==>
                  var held := |NonBlank(Lines(Window(file, size)), blank)|;
                  held >= n || held == |NonBlank(Lines(file), blank)|)
  {
    var before: seq<seq<Byte>> := [];
    if |file| > size { before := WindowHoldsTheLastLines(file, size, blank); }
    var part := NonBlank(Lines(Window(file, size)), blank);
    SuffixOfSuffix(before, part, n);
  }

  lemma SuffixOfSuffix<T>(before: seq<T>, part: seq<T>, n: nat)
    ensures var whole, last := Last(before + part, n), Last(part, n);
            && |last| <= |whole| && last == whole[|whole| - |last|..]
            && (last == whole <==> |part| >= n || before == [])
  {
  }

  predicate EndsWith(s: seq<Byte>, end: seq<Byte>) { |end| <= |s| && s[|s| - |end|..] == end }

  function LastLine(s: seq<Byte>): seq<Byte> {
    if Lines(s) == [] then [] else Lines(s)[|Lines(s)| - 1]
  }

  lemma LastLineIsLater(s: seq<Byte>)
    requires NEWLINE in s && s[FirstNewline(s).value + 1..] != []
    ensures LastLine(s) == LastLine(s[FirstNewline(s).value + 1..])
  {
  }

  lemma {:induction false} LastLineHoldsItsEnd(head: seq<Byte>, end: seq<Byte>)
    requires NEWLINE !in end && end != []
    ensures EndsWith(LastLine(head + end), end)
    decreases |head|
  {
    if NEWLINE in head {
      FirstNewlineOfPrefix(head, end);
      var i := FirstNewline(head).value;
      assert (head + end)[i + 1..] == head[i + 1..] + end;
      LastLineHoldsItsEnd(head[i + 1..], end);
      LastLineIsLater(head + end);
    } else {
      assert LastLine(head + end) == head + end;
    }
  }

  /** A last line longer than the window is shown by its end alone. */
  lemma LongLineIsCutAtItsHead(file: seq<Byte>, size: nat)
    requires |file| > size > 0 && NEWLINE !in file[|file| - size..]
    ensures Lines(Window(file, size)) == [Window(file, size)] && |Window(file, size)| == size
    ensures EndsWith(LastLine(file), Window(file, size))
  {
    var end := file[|file| - size..];
    assert file == file[..|file| - size] + end;
    LastLineHoldsItsEnd(file[..|file| - size], end);
  }
}
