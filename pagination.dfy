/** The pagination engine (`fetch_transactions_for_address`) and the
    multi-address fan-out (`fetch_transactions`).

    The page supplier is an oracle: `pages[i]` is what the i-th call of the
    retried `get_transactions_chunk` produces, a list of records or the
    exception it raises. The loop has no bound of its own, so a walk that
    needs more pages than the oracle holds ends with `OutOfPages`. */
module Pagination {
  import opened Values
  import opened Hex

  type PageOutcome = Result<seq<Record>, Error>

  /** The arguments of one page request. Every request made by the loop
      carries the same fixed block window and page size, whatever the
      cursor and the caller's `startblock`, `endblock` and `offset` are. */
  datatype ChunkCall = ChunkCall(address: string, moduleName: string, action: string,
                                 kwargs: map<string, Value>, startblock: int, endblock: int, offset: int)

  const RequestStartBlock := 0
  const RequestEndBlock := 99999999
  const RequestOffset := 10000

  /** The next cursor taken from a raw `blockNumber`: a string is read as
      base 16 and a number kept as it is. Any other value would
      be assigned to the cursor and make the next `last_block < endblock`
      raise a TypeError, which is raised here instead. */
  function BlockCursor(raw: Value): (r: Result<int, Error>)
    ensures raw.Num? ==> r == Ok(raw.n)
    ensures raw.Text? ==> r == IntBase16(raw)
    ensures !raw.Num? && !raw.Text? ==> r == Err(NotComparable(raw))
  {
    match raw
    case Num(n) => Ok(n)
    case Text(_) => IntBase16(raw)
    case _ => Err(NotComparable(raw))
  }

  /** What the loop does after appending a non-empty page. */
  datatype Step = Halt | Advance(cursor: int) | Abort(error: Error)

  /** The two break tests, short-circuited as written, then the cursor
      update. The stall test compares the cursor with the RAW block number,
      so it can only succeed when that is a number. */
  function NextStep(cursor: int, page: seq<Record>, offset: int): (s: Step)
    requires page != []
    ensures |page| < offset ==> s == Halt
    ensures s == Halt <==>
              |page| < offset
              || ("blockNumber" in page[|page| - 1] && page[|page| - 1]["blockNumber"] == Num(cursor))
    ensures s.Advance? ==>
              "blockNumber" in page[|page| - 1]
              && BlockCursor(page[|page| - 1]["blockNumber"]) == Ok(s.cursor)
    ensures |page| >= offset && "blockNumber" !in page[|page| - 1] ==> s == Abort(MissingKey("blockNumber"))
    ensures "blockNumber" in page[|page| - 1] && page[|page| - 1]["blockNumber"].Text? ==>
              (s == Halt <==> |page| < offset)
    ensures |page| >= offset && "blockNumber" in page[|page| - 1] && page[|page| - 1]["blockNumber"] != Num(cursor) ==>
              s == match BlockCursor(page[|page| - 1]["blockNumber"])
                   case Ok(c) => Advance(c)
                   case Err(e) => Abort(e)
  {
    if |page| < offset then Halt
    else
      var last := page[|page| - 1];
      if "blockNumber" !in last then Abort(MissingKey("blockNumber"))
      else if last["blockNumber"] == Num(cursor) then Halt
      else match BlockCursor(last["blockNumber"])
        case Ok(c) => Advance(c)
        case Err(e) => Abort(e)
  }

  datatype Stop = Finished | Failed(error: Error) | OutOfPages

  /** A walk: the records appended, how many pages were requested, and why
      the loop ended. */
  datatype Walk = Walk(records: seq<Record>, consumed: nat, stop: Stop)

  /** The walk of the loop from cursor `cursor` on the oracle `pages`. */
  function Paginate(cursor: int, endblock: int, offset: int, pages: seq<PageOutcome>): (w: Walk)
    ensures w.consumed <= |pages|
    ensures cursor >= endblock ==> w == Walk([], 0, Finished)
    decreases |pages|
  {
    if cursor >= endblock then Walk([], 0, Finished)
    else if pages == [] then Walk([], 0, OutOfPages)
    else match pages[0]
      case Err(e) => Walk([], 1, Failed(e))
      case Ok(page) =>
        if page == [] then Walk([], 1, Finished)
        else match NextStep(cursor, page, offset)
          case Halt => Walk(page, 1, Finished)
          case Abort(e) => Walk(page, 1, Failed(e))
          case Advance(c) => Extend(page, 1, Paginate(c, endblock, offset, pages[1..]))
  }

  function Extend(prefix: seq<Record>, n: nat, w: Walk): Walk
  {
    Walk(prefix + w.records, n + w.consumed, w.stop)
  }

  /** What the caller sees: the records, the exception, or the oracle's end. */
  datatype Fetched<+T> = Collected(value: T) | Raised(error: Error) | Exhausted

  function Outcome(w: Walk): Fetched<seq<Record>>
  {
    match w.stop
    case Finished => Collected(w.records)
    case Failed(e) => Raised(e)
    case OutOfPages => Exhausted
  }

  /** `fetch_transactions_for_address`: `requests` are the page requests
      made, in order. */
  method FetchTransactionsForAddress(address: string, moduleName: string, action: string,
                                     startblock: int, endblock: int, offset: int,
                                     kwargs: map<string, Value>, pages: seq<PageOutcome>)
    returns (r: Fetched<seq<Record>>, requests: seq<ChunkCall>)
    ensures r == Outcome(Paginate(startblock, endblock, offset, pages))
    ensures |requests| == Paginate(startblock, endblock, offset, pages).consumed
    ensures forall i :: 0 <= i < |requests| ==>
              requests[i] == ChunkCall(address, moduleName, action, kwargs,
                                       RequestStartBlock, RequestEndBlock, RequestOffset)
  {
    ghost var whole := Paginate(startblock, endblock, offset, pages);
    var call := ChunkCall(address, moduleName, action, kwargs, RequestStartBlock, RequestEndBlock, RequestOffset);
    var lastBlock := startblock;
    var addressTransactions: seq<Record> := [];
    var fetched := 0;
    requests := [];
    while lastBlock < endblock
      invariant 0 <= fetched <= |pages|
      invariant |requests| == fetched
      invariant forall i :: 0 <= i < |requests| ==> requests[i] == call
      invariant whole == Extend(addressTransactions, fetched, Paginate(lastBlock, endblock, offset, pages[fetched..]))
      decreases |pages| - fetched
    {
      if fetched == |pages| {
        assert whole.stop == OutOfPages;
        return Exhausted, requests;
      }
      ghost var rest := pages[fetched..];
      assert rest[1..] == pages[fetched + 1..];
      requests := requests + [call];
      var page := pages[fetched];
      fetched := fetched + 1;
      if page.Err? {
        PaginateStops(lastBlock, endblock, offset, rest);
        return Raised(page.error), requests;
      }
      var transactions := page.value;
      if transactions == [] {
        PaginateStops(lastBlock, endblock, offset, rest);
        assert whole == Walk(addressTransactions, fetched, Finished);
        break;
      }
      var step := NextStep(lastBlock, transactions, offset);
      if !step.Advance? {
        PaginateStops(lastBlock, endblock, offset, rest);
      }
      ghost var before := addressTransactions;
      addressTransactions := addressTransactions + transactions;
      match step
      case Halt =>
        assert whole == Walk(addressTransactions, fetched, Finished);
        break;
      case Abort(e) =>
        return Raised(e), requests;
      case Advance(c) =>
        PaginateAdvances(lastBlock, endblock, offset, rest, c);
        ExtendTwice(before, transactions, fetched - 1, 1, Paginate(c, endblock, offset, pages[fetched..]));
        lastBlock := c;
    }
    assert whole == Walk(addressTransactions, fetched, Finished);
    r := Collected(addressTransactions);
  }

  /** Extending twice is extending once by both prefixes. */
  lemma ExtendTwice(a: seq<Record>, b: seq<Record>, m: nat, n: nat, w: Walk)
    ensures Extend(a, m, Extend(b, n, w)) == Extend(a + b, m + n, w)
  {
    assert a + (b + w.records) == (a + b) + w.records;
  }

  /** The records of the pages, in order. */
  function Concat(pages: seq<PageOutcome>): seq<Record>
  {
    if pages == [] then [] else (if pages[0].Ok? then pages[0].value else []) + Concat(pages[1..])
  }

  /** A walk that did not fail fetched only pages, and its records are the
      in-order concatenation of exactly the pages it fetched. */
  lemma {:induction false} PaginateIsConcatenation(cursor: int, endblock: int, offset: int, pages: seq<PageOutcome>)
    decreases |pages|
    ensures var w := Paginate(cursor, endblock, offset, pages);
            !w.stop.Failed? ==>
              (forall j :: 0 <= j < w.consumed ==> pages[j].Ok?)
              && w.records == Concat(pages[..w.consumed])
  {
    var w := Paginate(cursor, endblock, offset, pages);
    if cursor < endblock && pages != [] && pages[0].Ok? && pages[0].value != [] {
      var page := pages[0].value;
      match NextStep(cursor, page, offset)
      case Halt =>
        assert pages[..1][1..] == [];
      case Abort(_) =>
      case Advance(c) =>
        PaginateIsConcatenation(c, endblock, offset, pages[1..]);
        var rest := Paginate(c, endblock, offset, pages[1..]);
        assert pages[..w.consumed][1..] == pages[1..][..rest.consumed];
    }
  }

  /** One step of the walk: after a successful, non-empty page that lets the
      loop advance, the walk appends that page and goes on from the new cursor
      with the remaining pages. */
  lemma PaginateAdvances(cursor: int, endblock: int, offset: int, pages: seq<PageOutcome>, c: int)
    requires cursor < endblock && pages != [] && pages[0].Ok? && pages[0].value != []
    requires NextStep(cursor, pages[0].value, offset) == Advance(c)
    ensures Paginate(cursor, endblock, offset, pages)
            == Extend(pages[0].value, 1, Paginate(c, endblock, offset, pages[1..]))
  {
  }

  /** One step of the walk that ends it: an empty page, a halting page, an
      aborting page or a failed request is the last page fetched. */
  lemma PaginateStops(cursor: int, endblock: int, offset: int, pages: seq<PageOutcome>)
    requires cursor < endblock && pages != []
    requires pages[0].Err? || pages[0].value == [] || !NextStep(cursor, pages[0].value, offset).Advance?
    ensures var w := Paginate(cursor, endblock, offset, pages);
            && w.consumed == 1
            && w.records == (if pages[0].Ok? then pages[0].value else [])
            && (w.stop.Finished? <==> pages[0].Ok? && (pages[0].value == [] || NextStep(cursor, pages[0].value, offset).Halt?))
            && (pages[0].Err? ==> w.stop == Failed(pages[0].error))
            && (pages[0].Ok? && pages[0].value != [] && NextStep(cursor, pages[0].value, offset).Abort? ==>
                  w.stop == Failed(NextStep(cursor, pages[0].value, offset).error))
  {
  }

  /** Only a full page lets the walk go on: every page fetched before the
      last one was non-empty and held at least `offset` records, and a walk
      that ran out of pages used all of them, each one full. */
  lemma {:induction false} FullPagesBeforeLast(cursor: int, endblock: int, offset: int, pages: seq<PageOutcome>)
    decreases |pages|
    ensures var w := Paginate(cursor, endblock, offset, pages);
            && (forall j :: 0 <= j < w.consumed - 1 ==>
                  pages[j].Ok? && pages[j].value != [] && |pages[j].value| >= offset)
            && (w.stop == OutOfPages ==>
                  && w.consumed == |pages|
                  && forall j :: 0 <= j < w.consumed ==> pages[j].Ok? && |pages[j].value| >= offset)
            && (w.consumed == 0 <==> cursor >= endblock || pages == [])
  {
    if cursor < endblock && pages != [] && pages[0].Ok? && pages[0].value != [] {
      var page := pages[0].value;
      match NextStep(cursor, page, offset)
      case Halt =>
      case Abort(_) =>
      case Advance(c) =>
        FullPagesBeforeLast(c, endblock, offset, pages[1..]);
        var rest := Paginate(c, endblock, offset, pages[1..]);
        forall j | 1 <= j < rest.consumed + 1
          ensures pages[j] == pages[1..][j - 1]
        {
        }
    }
  }

  /** The stall guard never fires on string block numbers: a full page
      whose last block number is the cursor written in hex is fetched again
      and again, its records appended each time, until the oracle ends. */
  lemma {:induction false} HexBlockNumberNeverStalls(cursor: int, endblock: int, offset: int,
                                                     page: seq<Record>, pages: seq<PageOutcome>)
    requires 0 <= cursor < endblock && page != [] && |page| >= offset
    requires "blockNumber" in page[|page| - 1]
    requires page[|page| - 1]["blockNumber"] == Text(ToHex(cursor))
    requires forall i :: 0 <= i < |pages| ==> pages[i] == Ok(page)
    ensures Paginate(cursor, endblock, offset, pages) == Walk(Repeat(page, |pages|), |pages|, OutOfPages)
  {
    if pages != [] {
      ParseHexOfToHex(cursor);
      assert NextStep(cursor, page, offset) == Advance(cursor);
      HexBlockNumberNeverStalls(cursor, endblock, offset, page, pages[1..]);
    }
  }

  /** The same page with the block number as a number stops the walk at once. */
  lemma NumericBlockNumberStalls(cursor: int, endblock: int, offset: int,
                                 page: seq<Record>, pages: seq<PageOutcome>)
    requires cursor < endblock && page != [] && |page| >= offset
    requires "blockNumber" in page[|page| - 1] && page[|page| - 1]["blockNumber"] == Num(cursor)
    requires pages != [] && pages[0] == Ok(page)
    ensures Paginate(cursor, endblock, offset, pages) == Walk(page, 1, Finished)
  {
  }

  function Repeat(page: seq<Record>, n: nat): seq<Record>
  {
    if n == 0 then [] else page + Repeat(page, n - 1)
  }

  /** `fetch_transactions`' first argument: one address or a list of them. */
  datatype Addresses = Single(address: string) | Several(list: seq<string>)

  function AddressList(addresses: Addresses): (l: seq<string>)
    ensures addresses.Single? ==> l == [addresses.address]
  {
    match addresses
    case Single(a) => [a]
    case Several(l) => l
  }

  /** `asyncio.gather` over the per-address results: the list of results in
      input order, or the first failure. */
  function Gather<T>(outcomes: seq<Fetched<T>>): (r: Fetched<seq<T>>)
    ensures r.Collected? <==> forall i :: 0 <= i < |outcomes| ==> outcomes[i].Collected?
    ensures r.Collected? ==>
              |r.value| == |outcomes| && forall i :: 0 <= i < |outcomes| ==> r.value[i] == outcomes[i].value
    ensures r.Raised? ==>
              exists i :: 0 <= i < |outcomes| && outcomes[i] == Raised(r.error)
                          && forall j :: 0 <= j < i ==> outcomes[j].Collected?
    ensures r.Exhausted? ==>
              exists i :: 0 <= i < |outcomes| && outcomes[i].Exhausted?
                          && forall j :: 0 <= j < i ==> outcomes[j].Collected?
  {
    if outcomes == [] then Collected([])
    else match outcomes[0]
      case Raised(e) => Raised(e)
      case Exhausted => Exhausted
      case Collected(v) =>
        assert forall j :: 0 <= j < |outcomes| - 1 ==> outcomes[1..][j] == outcomes[j + 1];
        match Gather(outcomes[1..])
        case Collected(vs) => Collected([v] + vs)
        case Raised(e) => Raised(e)
        case Exhausted => Exhausted
  }

  /** `fetch_transactions`: one walk per address, the i-th on the oracle
      `oracle(i)`, gathered positionally and not flattened. */
  function FetchTransactions(addresses: Addresses, startblock: int, endblock: int, offset: int,
                             oracle: nat -> seq<PageOutcome>): (r: Fetched<seq<seq<Record>>>)
    ensures var list := AddressList(addresses);
            && (r.Collected? <==>
                  forall i :: 0 <= i < |list| ==> Paginate(startblock, endblock, offset, oracle(i)).stop.Finished?)
            && (r.Collected? ==>
                  && |r.value| == |list|
                  && forall i :: 0 <= i < |list| ==> r.value[i] == Paginate(startblock, endblock, offset, oracle(i)).records)
    ensures addresses.Single? && r.Collected? ==> |r.value| == 1
  {
    var list := AddressList(addresses);
    var outcomes := seq(|list|, i requires 0 <= i => Outcome(Paginate(startblock, endblock, offset, oracle(i))));
    assert forall i :: 0 <= i < |list| ==> outcomes[i] == Outcome(Paginate(startblock, endblock, offset, oracle(i)));
    Gather(outcomes)
  }
}
