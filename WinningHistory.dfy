/** The winnings history: the contract's logs decoded best-effort into prize events, sorted
    newest first, and shown five to a page with clamped navigation. */
module WinningHistory {
  import opened Wrappers
  import opened Events
  import opened PrizeTiers

  /** A log as the block explorer returns it: the raw record and its `timeStamp` field after
      `parseInt`, which is `None` when that yields NaN. */
  datatype HistoryLog = HistoryLog(raw: RawLog, timeStamp: Option<int>)

  /** One decoded winning; the timestamp is in milliseconds since the epoch. */
  datatype WinningEvent = WinningEvent(txHash: string, prize: nat, isSpecial: bool, timestampMs: int, player: string)

  /** The largest distance from the epoch, in milliseconds, that a JavaScript date can hold;
      rendering a timestamp beyond it as an ISO string throws. */
  const MaxDateMs: int := 8_640_000_000_000_000

  const ItemsPerPage: nat := 5

  /** Whether a parsed timestamp, in seconds, makes a date that renders. */
  predicate RenderableStamp(seconds: int) {
    -MaxDateMs <= seconds * 1000 <= MaxDateMs
  }

  /** Decoding one log. The history's interface knows only PrizeAwarded, so any other event is a
      failure too; so is a timestamp that does not make a renderable date. */
  function DecodeWinning(log: HistoryLog, decode: Decoder): (r: Option<WinningEvent>)
    ensures r.Some? <==>
      && decode(log.raw).Some? && decode(log.raw).value.PrizeAwarded?
      && log.timeStamp.Some? && RenderableStamp(log.timeStamp.value)
    ensures r.Some? ==>
      var e := decode(log.raw).value;
      r.value == WinningEvent(log.raw.transactionHash, e.prize, e.special, log.timeStamp.value * 1000, e.player)
  {
    match decode(log.raw)
    case Some(PrizeAwarded(player, prize, special)) =>
      if log.timeStamp.Some? && RenderableStamp(log.timeStamp.value)
      then Some(WinningEvent(log.raw.transactionHash, prize, special, log.timeStamp.value * 1000, player))
      else None
    case _ => None
  }

  /** Decode every log, dropping the ones that fail, in log order. */
  function DecodeAll(logs: seq<HistoryLog>, decode: Decoder): (r: seq<WinningEvent>)
    ensures |r| <= |logs|
  {
    if logs == [] then []
    else
      var init := DecodeAll(logs[..|logs| - 1], decode);
      match DecodeWinning(logs[|logs| - 1], decode)
      case Some(w) => init + [w]
      case None => init
  }

  /** Decoding a concatenation decodes each part: a failing log only drops itself. */
  lemma {:induction false} DecodeAllAppend(a: seq<HistoryLog>, b: seq<HistoryLog>, decode: Decoder)
    ensures DecodeAll(a + b, decode) == DecodeAll(a, decode) + DecodeAll(b, decode)
  {
    if b == [] {
      assert a + b == a;
    } else {
      assert (a + b)[..|a + b| - 1] == a + b[..|b| - 1];
      DecodeAllAppend(a, b[..|b| - 1], decode);
    }
  }

  /** A winning is kept exactly when some log decodes to it. */
  lemma {:induction false} DecodeAllMembers(logs: seq<HistoryLog>, decode: Decoder, w: WinningEvent)
    ensures w in DecodeAll(logs, decode) <==> exists i | 0 <= i < |logs| :: DecodeWinning(logs[i], decode) == Some(w)
  {
    if logs != [] {
      var init := logs[..|logs| - 1];
      DecodeAllMembers(init, decode, w);
      if exists i | 0 <= i < |logs| :: DecodeWinning(logs[i], decode) == Some(w) {
        var i :| 0 <= i < |logs| && DecodeWinning(logs[i], decode) == Some(w);
        if i < |init| {
          assert init[i] == logs[i];
        }
      }
      if exists i | 0 <= i < |init| :: DecodeWinning(init[i], decode) == Some(w) {
        var i :| 0 <= i < |init| && DecodeWinning(init[i], decode) == Some(w);
        assert logs[i] == init[i];
      }
    }
  }

  /** Sorted newest first: timestamps never increase along the list. */
  predicate NewestFirst(ws: seq<WinningEvent>) {
    forall i, j | 0 <= i < j < |ws| :: ws[j].timestampMs <= ws[i].timestampMs
  }

  /** Each timestamp is at most the one before it. */
  predicate StepsDown(ws: seq<WinningEvent>) {
    forall i | 0 < i < |ws| :: ws[i].timestampMs <= ws[i - 1].timestampMs
  }

  /** Stepwise order is the same as order between any two entries. */
  lemma {:induction false} StepsDownNewestFirst(ws: seq<WinningEvent>)
    requires StepsDown(ws)
    ensures NewestFirst(ws)
  {
    if ws != [] {
      var rest := ws[1..];
      assert StepsDown(rest) by {
        forall i | 0 < i < |rest| ensures rest[i].timestampMs <= rest[i - 1].timestampMs {
          assert rest[i] == ws[i + 1] && rest[i - 1] == ws[i];
        }
      }
      StepsDownNewestFirst(rest);
      forall i, j | 0 <= i < j < |ws| ensures ws[j].timestampMs <= ws[i].timestampMs {
        if 0 < i {
          assert ws[i] == rest[i - 1] && ws[j] == rest[j - 1];
        } else if 1 < j {
          assert ws[1] == rest[0] && ws[j] == rest[j - 1];
        }
      }
    }
  }

  /** The winnings with one timestamp, in list order. */
  function WithStamp(ws: seq<WinningEvent>, t: int): seq<WinningEvent> {
    if ws == [] then []
    else (if ws[0].timestampMs == t then [ws[0]] else []) + WithStamp(ws[1..], t)
  }

  /** Insert `w` in front of the first entry that is not newer. */
  function Insert(w: WinningEvent, ws: seq<WinningEvent>): (r: seq<WinningEvent>)
    ensures |r| == |ws| + 1
    ensures r[0] == w || (ws != [] && r[0] == ws[0])
    ensures multiset(r) == multiset(ws) + multiset{w}
  {
    if ws == [] || ws[0].timestampMs <= w.timestampMs then [w] + ws
    else
      assert ws == [ws[0]] + ws[1..];
      [ws[0]] + Insert(w, ws[1..])
  }

  /** Inserting into a stepwise-ordered list keeps it ordered. */
  lemma {:induction false} InsertStepsDown(w: WinningEvent, ws: seq<WinningEvent>)
    requires StepsDown(ws)
    ensures StepsDown(Insert(w, ws))
  {
    if ws == [] || ws[0].timestampMs <= w.timestampMs {
      var r := [w] + ws;
      assert Insert(w, ws) == r;
      forall i | 0 < i < |r| ensures r[i].timestampMs <= r[i - 1].timestampMs {
        if 1 < i {
          assert r[i] == ws[i - 1] && r[i - 1] == ws[i - 2];
        }
      }
    } else {
      var rest := ws[1..];
      assert StepsDown(rest) by {
        forall i | 0 < i < |rest| ensures rest[i].timestampMs <= rest[i - 1].timestampMs {
          assert rest[i] == ws[i + 1] && rest[i - 1] == ws[i];
        }
      }
      InsertStepsDown(w, rest);
      var ins := Insert(w, rest);
      var r := [ws[0]] + ins;
      assert Insert(w, ws) == r;
      forall i | 0 < i < |r| ensures r[i].timestampMs <= r[i - 1].timestampMs {
        if 1 < i {
          assert r[i] == ins[i - 1] && r[i - 1] == ins[i - 2];
        } else if rest != [] {
          assert ws[1] == rest[0];
        }
      }
    }
  }

  /** The entries of one timestamp in a list with `x` in front. */
  lemma WithStampCons(x: WinningEvent, ws: seq<WinningEvent>, t: int)
    ensures WithStamp([x] + ws, t) == (if x.timestampMs == t then [x] else []) + WithStamp(ws, t)
  {
    assert ([x] + ws)[1..] == ws;
  }

  /** Inserting keeps, for every timestamp, the entries with that timestamp in the same order
      as putting `w` in front. */
  lemma {:induction false} InsertStable(w: WinningEvent, ws: seq<WinningEvent>, t: int)
    ensures WithStamp(Insert(w, ws), t) == WithStamp([w] + ws, t)
  {
    if ws == [] || ws[0].timestampMs <= w.timestampMs {
      assert Insert(w, ws) == [w] + ws;
    } else {
      var rest := ws[1..];
      var ins := Insert(w, rest);
      assert Insert(w, ws) == [ws[0]] + ins;
      assert ws == [ws[0]] + rest;
      InsertStable(w, rest, t);
      WithStampCons(ws[0], ins, t);
      WithStampCons(w, rest, t);
      WithStampCons(ws[0], rest, t);
      WithStampCons(w, ws, t);
      if ws[0].timestampMs == t {
        assert WithStamp([w] + ws, t) == WithStamp(ws, t);
        assert WithStamp(ins, t) == WithStamp(rest, t);
      } else {
        assert WithStamp(ws, t) == WithStamp(rest, t);
      }
    }
  }

  /** The stable sort by timestamp, newest first (`Array.prototype.sort` is stable). */
  function SortNewestFirst(ws: seq<WinningEvent>): (r: seq<WinningEvent>)
    ensures StepsDown(r)
    ensures multiset(r) == multiset(ws)
  {
    if ws == [] then []
    else
      assert ws == [ws[0]] + ws[1..];
      var sorted := SortNewestFirst(ws[1..]);
      InsertStepsDown(ws[0], sorted);
      Insert(ws[0], sorted)
  }

  /** The sort is stable: the winnings that share a timestamp keep their input order. */
  lemma {:induction false} SortStable(ws: seq<WinningEvent>, t: int)
    ensures WithStamp(SortNewestFirst(ws), t) == WithStamp(ws, t)
  {
    if ws != [] {
      var sorted := SortNewestFirst(ws[1..]);
      SortStable(ws[1..], t);
      InsertStable(ws[0], sorted, t);
      assert ([ws[0]] + sorted)[1..] == sorted;
    }
  }

  /** The whole pipeline: decode, drop failures, sort newest first. */
  function ProcessHistory(logs: seq<HistoryLog>, decode: Decoder): (r: seq<WinningEvent>)
    ensures NewestFirst(r)
    ensures multiset(r) == multiset(DecodeAll(logs, decode))
  {
    var sorted := SortNewestFirst(DecodeAll(logs, decode));
    StepsDownNewestFirst(sorted);
    sorted
  }

  /** The number of pages: the ceiling of the count over five, and never less than one. */
  function TotalPages(n: nat): (r: nat)
    ensures 1 <= r
    ensures n <= ItemsPerPage * r
    ensures 0 < n ==> ItemsPerPage * (r - 1) < n
    ensures n == 0 ==> r == 1
  {
    var pages := (n + ItemsPerPage - 1) / ItemsPerPage;
    if pages < 1 then 1 else pages
  }

  /** The winnings on a page, `slice(start, start + 5)` with the slice clamped to the list. */
  function PageSlice(ws: seq<WinningEvent>, page: nat): (r: seq<WinningEvent>)
    requires 1 <= page
    ensures |r| <= ItemsPerPage
    ensures var start := (page - 1) * ItemsPerPage;
      && |r| == (if |ws| <= start then 0 else if |ws| - start < ItemsPerPage then |ws| - start else ItemsPerPage)
      && (r == [] <==> |ws| <= start)
      && forall k | 0 <= k < |r| :: start + k < |ws| && r[k] == ws[start + k]
  {
    var start := (page - 1) * ItemsPerPage;
    var end := start + ItemsPerPage;
    if |ws| <= start then [] else ws[start..if end < |ws| then end else |ws|]
  }

  /** Every winning is on some page within range, at its position in the page. */
  lemma PageCovers(ws: seq<WinningEvent>, i: nat)
    requires i < |ws|
    ensures var page := i / ItemsPerPage + 1;
      && page <= TotalPages(|ws|)
      && i % ItemsPerPage < |PageSlice(ws, page)|
      && PageSlice(ws, page)[i % ItemsPerPage] == ws[i]
  {
    var page := i / ItemsPerPage + 1;
    var r := TotalPages(|ws|);
    assert (page - 1) * ItemsPerPage + i % ItemsPerPage == i;
  }

  /** "Previous": one page back, never below the first. */
  function PreviousPage(page: nat): (r: nat)
    ensures 1 <= r
    ensures r <= page || page == 0
    ensures 1 < page ==> r == page - 1
  {
    if page - 1 > 1 then page - 1 else 1
  }

  /** "Next": one page on, never past the last. */
  function NextPage(page: nat, totalPages: nat): (r: nat)
    ensures r <= totalPages
    ensures 1 <= totalPages && 1 <= page ==> 1 <= r
    ensures page < totalPages ==> r == page + 1
    ensures page <= totalPages ==> page <= r
  {
    if page + 1 < totalPages then page + 1 else totalPages
  }

  /** Inside the range, each button undoes the other wherever the other moved. */
  lemma PageButtonsInverse(page: nat, totalPages: nat)
    requires 1 <= page <= totalPages
    ensures page < totalPages ==> PreviousPage(NextPage(page, totalPages)) == page
    ensures 1 < page ==> NextPage(PreviousPage(page), totalPages) == page
  {
  }

  /** The winner's address as shown: its first six characters, "...", then its last four, each
      part clamped to the string as `slice` does. */
  function Abbreviate(player: string): (r: string)
    ensures var head := if |player| < 6 then |player| else 6;
      var tail := if |player| < 4 then |player| else 4;
      && |r| == head + 3 + tail
      && r[..head] == player[..head]
      && r[head..head + 3] == "..."
      && r[head + 3..] == player[|player| - tail..]
  {
    var head := if |player| < 6 then |player| else 6;
    var tailStart := if |player| < 4 then 0 else |player| - 4;
    player[..head] + "..." + player[tailStart..]
  }

  /** What the block explorer call produced: no response (a network or JSON failure), or a
      response with its `status` and `result` fields (`result` missing or empty reads as []). */
  datatype FetchOutcome =
    | FetchFailed
    | Fetched(status: string, result: Option<seq<HistoryLog>>)

  /** One row of the list. */
  datatype WinningRow = WinningRow(prize: nat, tier: PrizeTier, isSpecial: bool, timestampMs: int, winner: string, txHash: string)

  /** The page controls, shown when there is more than one page. */
  datatype Pager = Pager(page: nat, totalPages: nat, previousDisabled: bool, nextDisabled: bool)

  /** The three things the component shows. */
  datatype HistoryView =
    | Loading
    | Records(rows: seq<WinningRow>, pager: Option<Pager>)
    | NoRecords

  /** The row of one winning: its prize in its colour tier and the winner abbreviated. */
  function RowOf(w: WinningEvent): WinningRow {
    WinningRow(w.prize, PrizeColor(w.prize), w.isSpecial, w.timestampMs, Abbreviate(w.player), w.txHash)
  }

  /** The component's state: the sorted winnings, the loading flag and the current page. */
  class History {
    var winnings: seq<WinningEvent>
    var loading: bool
    var page: nat

    /** The page stays within [1, totalPages], and nothing is held while loading. */
    ghost predicate Valid()
      reads this
    {
      && 1 <= page <= TotalPages(|winnings|)
      && (loading ==> winnings == [])
    }

    constructor ()
      ensures Valid()
      ensures winnings == [] && loading && page == 1
    {
      winnings, loading, page := [], true, 1;
    }

    /** The fetch settles: a failure or status "0" keeps the winnings; otherwise they become the
        processed result. Either way loading ends. */
    method FetchSettled(outcome: FetchOutcome, decode: Decoder)
      requires Valid() && loading
      modifies this
      ensures Valid()
      ensures !loading && page == old(page)
      ensures outcome.FetchFailed? || outcome.status == "0" ==> winnings == old(winnings)
      ensures outcome.Fetched? && outcome.status != "0" ==>
        winnings == ProcessHistory(outcome.result.GetOr([]), decode)
    {
      if outcome.Fetched? && outcome.status != "0" {
        winnings := ProcessHistory(outcome.result.GetOr([]), decode);
      }
      loading := false;
    }

    /** The "Previous" button. */
    method PreviousPressed()
      requires Valid()
      modifies this
      ensures Valid()
      ensures page == PreviousPage(old(page))
      ensures winnings == old(winnings) && loading == old(loading)
    {
      page := PreviousPage(page);
    }

    /** The "Next" button. */
    method NextPressed()
      requires Valid()
      modifies this
      ensures Valid()
      ensures page == NextPage(old(page), TotalPages(|winnings|))
      ensures winnings == old(winnings) && loading == old(loading)
    {
      page := NextPage(page, TotalPages(|winnings|));
    }

    /** The winnings of the current page. */
    function Displayed(): (r: seq<WinningEvent>)
      reads this
      requires 1 <= page
      ensures |r| <= ItemsPerPage
      ensures r == PageSlice(winnings, page)
      ensures r == [] <==> |winnings| <= (page - 1) * ItemsPerPage
      ensures forall k | 0 <= k < |r| ::
        (page - 1) * ItemsPerPage + k < |winnings| && r[k] == winnings[(page - 1) * ItemsPerPage + k]
    {
      PageSlice(winnings, page)
    }

    /** What the component shows: the loading notice, the current page's rows (with the page
        controls when there is more than one page), or the empty notice. */
    function View(): (r: HistoryView)
      reads this
      requires 1 <= page
      ensures r.Loading? <==> loading
      ensures r.NoRecords? <==> !loading && Displayed() == []
      ensures r.Records? ==>
        && |r.rows| == |Displayed()|
        && (forall k | 0 <= k < |r.rows| :: r.rows[k] == RowOf(Displayed()[k]))
        && (r.pager.Some? <==> 1 < TotalPages(|winnings|))
        && (r.pager.Some? ==>
              && r.pager.value.page == page && r.pager.value.totalPages == TotalPages(|winnings|)
              && (r.pager.value.previousDisabled <==> page == 1)
              && (r.pager.value.nextDisabled <==> page == TotalPages(|winnings|)))
    {
      if loading then Loading
      else
        var shown := Displayed();
        if shown == [] then NoRecords
        else
          var totalPages := TotalPages(|winnings|);
          var rows := seq(|shown|, k requires 0 <= k < |shown| => RowOf(shown[k]));
          var pager := if 1 < totalPages then Some(Pager(page, totalPages, page == 1, page == totalPages)) else None;
          Records(rows, pager)
    }
  }
}
