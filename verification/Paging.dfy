/**
 Reading a whole table a page at a time, of internal/aiobackend/aiobackend.go: each query asks for the
 rows after the last id seen.
 */
module Paging {
  import opened Wrappers

  const PAGE_SIZE: nat := 1500
  const INT64_MAX: int := 0x7fff_ffff_ffff_ffff

  type Int64 = n: int | -INT64_MAX - 1 <= n <= INT64_MAX witness 0

  /** A row and the number its "id" reads as. */
  datatype Row = Row(id: Int64, fields: string)

  datatype Failure = QueryFailed | DidNotAdvance

  type Rows = Result<seq<Row>, Failure>

  /** What the k-th query answers for the rows after an id. */
  type Server = (nat, Int64) -> Rows

  // ── The loop ───────────────────────────────────────────────────────────────

  function Prepend(rows: seq<Row>, rest: Rows): Rows {
    if rest.Ok? then Ok(rows + rest.value) else rest
  }

  /** What is read from the k-th query on. */
  function Paged(server: Server, k: nat, after: Int64): Rows
    decreases INT64_MAX - after
  {
    var answer := server(k, after);
    if answer.Err? then answer
    else
      var rows := answer.value;
      if |rows| < PAGE_SIZE then Ok(rows)
      else if rows[|rows| - 1].id <= after then Err(DidNotAdvance)
      else Prepend(rows, Paged(server, k + 1, rows[|rows| - 1].id))
  }

  /** Whatever the server answers the loop ends, since the id it asks after only grows. */
  method QueryAll(server: Server) returns (r: Rows)
    ensures r == Paged(server, 0, 0)
  {
    var out: seq<Row>, after: Int64, k: nat := [], 0, 0;
    PrependNothing(Paged(server, 0, 0));
    while true
      invariant Paged(server, 0, 0) == Prepend(out, Paged(server, k, after))
      decreases INT64_MAX - after
    {
      var answer := server(k, after);
      if answer.Err? {
        return answer;
      }
      var rows := answer.value;
      ghost var before := out;
      out := out + rows;
      if |rows| < PAGE_SIZE {
        return Ok(out);
      }
      var next := rows[|rows| - 1].id;
      if next <= after {
        return Err(DidNotAdvance);
      }
      assert Paged(server, k, after) == Prepend(rows, Paged(server, k + 1, next));
      PrependTwice(before, rows, Paged(server, k + 1, next));
      after, k := next, k + 1;
    }
  }

  lemma PrependNothing(rest: Rows)
    ensures Prepend([], rest) == rest
  {
    if rest.Ok? { assert [] + rest.value == rest.value; }
  }

  lemma PrependTwice(a: seq<Row>, b: seq<Row>, rest: Rows)
    ensures Prepend(a, Prepend(b, rest)) == Prepend(a + b, rest)
  {
    if rest.Ok? { assert a + (b + rest.value) == a + b + rest.value; }
  }

  // ── Tables ─────────────────────────────────────────────────────────────────

  /** The rows a query can see, in id order; ids are distinct. */
  predicate Table(rows: seq<Row>) {
    forall i, j :: 0 <= i < j < |rows| ==> rows[i].id < rows[j].id
  }

  function After(rows: seq<Row>, id: int): seq<Row> {
    if rows == [] || rows[0].id > id then rows else After(rows[1..], id)
  }

  lemma {:induction false} AfterMeaning(rows: seq<Row>, id: int)
    requires Table(rows)
    ensures Table(After(rows, id))
    ensures forall r :: r in After(rows, id) <==> r in rows && r.id > id
  {
    if rows != [] && rows[0].id <= id {
      AfterMeaning(rows[1..], id);
      assert forall r :: r in rows <==> r == rows[0] || r in rows[1..];
    } else {
      assert forall r <- rows :: r.id >= rows[0].id;
    }
  }

  /** Asking after the id of the n-th row skips exactly the first n. */
  lemma {:induction false} AfterNth(rows: seq<Row>, id: int, n: nat)
    requires Table(rows) && 0 < n <= |After(rows, id)|
    ensures After(rows, After(rows, id)[n - 1].id) == After(rows, id)[n..]
  {
    if rows[0].id <= id {
      AfterNth(rows[1..], id, n);
      AfterMeaning(rows[1..], id);
      assert After(rows, id)[n - 1] in After(rows[1..], id);
    } else {
      DropFirst(rows, n);
    }
  }

  lemma {:induction false} DropFirst(rows: seq<Row>, n: nat)
    requires Table(rows) && 0 < n <= |rows|
    ensures After(rows, rows[n - 1].id) == rows[n..]
  {
    if n > 1 {
      DropFirst(rows[1..], n - 1);
    } else {
      assert After(rows, rows[0].id) == After(rows[1..], rows[0].id) == rows[1..];
    }
  }

  function Page(rows: seq<Row>, id: int): seq<Row> {
    var left := After(rows, id);
    if |left| <= PAGE_SIZE then left else left[..PAGE_SIZE]
  }

  // ── A table that stays as it is ────────────────────────────────────────────

  ghost predicate Serves(server: Server, rows: seq<Row>) {
    forall k: nat, id: Int64 :: server(k, id) == Ok(Page(rows, id))
  }

  function Queries(server: Server, k: nat, after: Int64): nat
    decreases INT64_MAX - after
  {
    var answer := server(k, after);
    if answer.Err? || |answer.value| < PAGE_SIZE || answer.value[|answer.value| - 1].id <= after then 1
    else 1 + Queries(server, k + 1, answer.value[|answer.value| - 1].id)
  }

  lemma {:induction false} RestOfTable(server: Server, rows: seq<Row>, k: nat, after: Int64)
    requires Table(rows) && Serves(server, rows)
    ensures Paged(server, k, after) == Ok(After(rows, after))
    ensures Queries(server, k, after) == |After(rows, after)| / PAGE_SIZE + 1
    decreases INT64_MAX - after
  {
    var left := After(rows, after);
    assert server(k, after) == Ok(Page(rows, after));
    if |left| >= PAGE_SIZE {
      AfterMeaning(rows, after);
      assert left[PAGE_SIZE - 1] in left;
      AfterNth(rows, after, PAGE_SIZE);
      RestOfTable(server, rows, k + 1, left[PAGE_SIZE - 1].id);
      assert left == left[..PAGE_SIZE] + left[PAGE_SIZE..];
      assert Page(rows, after) == left[..PAGE_SIZE];
    }
  }

  /** Every row exactly once and in order, with one query more than there are full pages, exactly when the
      ids are positive: a count that is a multiple of the page size ends with an empty page. */
  lemma WholeTableIff(server: Server, rows: seq<Row>)
    requires Table(rows) && Serves(server, rows)
    ensures Paged(server, 0, 0) == Ok(rows) <==> forall r <- rows :: r.id > 0
    ensures (forall r <- rows :: r.id > 0) ==> Queries(server, 0, 0) == |rows| / PAGE_SIZE + 1
  {
    RestOfTable(server, rows, 0, 0);
    AfterMeaning(rows, 0);
    if forall r <- rows :: r.id > 0 {
      assert rows == [] || rows[0] in rows;
    }
  }

  // ── A table that changes between queries ───────────────────────────────────

  /** The k-th query sees the k-th state of the table, or fails. */
  ghost predicate ServesChanging(server: Server, states: nat -> seq<Row>) {
    && (forall k: nat :: Table(states(k)))
    && forall k: nat, id: Int64 :: server(k, id) == Ok(Page(states(k), id)) || server(k, id) == Err(QueryFailed)
  }

  predicate Lists(rows: seq<Row>, id: int) {
    exists r <- rows :: r.id == id
  }

  /** A page is a run of the rows after the id it was asked for. */
  lemma PageMeaning(rows: seq<Row>, id: int)
    requires Table(rows)
    ensures Table(Page(rows, id))
    ensures forall r <- Page(rows, id) :: r in rows && r.id > id
  {
    AfterMeaning(rows, id);
    var left := After(rows, id);
    assert forall r <- Page(rows, id) :: r in left;
  }

  /** A page that is not full holds all of them, a full one all up to its last id. */
  lemma PageMissesNone(rows: seq<Row>, id: int, r: Row)
    requires Table(rows) && r in rows && r.id > id
    ensures var page := Page(rows, id); |page| < PAGE_SIZE || r.id <= page[|page| - 1].id ==> r in page
  {
    AfterMeaning(rows, id);
    var left := After(rows, id);
    var i :| 0 <= i < |left| && left[i] == r;
    if i < PAGE_SIZE { assert Page(rows, id)[i] == r; }
  }

  /** Every row read was in the table at one of the n queries from the k-th on, after the given id. */
  ghost predicate WasThere(states: nat -> seq<Row>, k: nat, n: nat, after: int, rows: seq<Row>) {
    forall x <- rows :: x.id > after && exists m: nat :: k <= m < k + n && x in states(m)
  }

  /** A row, whatever becomes of its fields, is listed whenever one with its id was in the table at each
      of these queries. */
  ghost predicate MissesNone(states: nat -> seq<Row>, k: nat, n: nat, after: int, rows: seq<Row>) {
    forall id: Int64 :: id > after && (forall m: nat :: k <= m < k + n ==> Lists(states(m), id)) ==> Lists(rows, id)
  }

  /** Ids only grow, nothing comes twice, nothing is made up, and no row that stays is missed. */
  ghost predicate Fair(states: nat -> seq<Row>, k: nat, n: nat, after: int, rows: seq<Row>) {
    Table(rows) && WasThere(states, k, n, after, rows) && MissesNone(states, k, n, after, rows)
  }

  lemma FairPage(states: nat -> seq<Row>, k: nat, after: Int64)
    requires Table(states(k)) && |Page(states(k), after)| < PAGE_SIZE
    ensures Fair(states, k, 1, after, Page(states(k), after))
  {
    PageMeaning(states(k), after);
    forall id: Int64 | id > after && Lists(states(k), id) ensures Lists(Page(states(k), after), id) {
      var r :| r in states(k) && r.id == id;
      PageMissesNone(states(k), after, r);
    }
  }

  lemma TableJoin(page: seq<Row>, rest: seq<Row>)
    requires page != [] && Table(page) && Table(rest)
    requires forall x <- rest :: x.id > page[|page| - 1].id
    ensures Table(page + rest)
  {
    forall i, j | 0 <= i < j < |page + rest| ensures (page + rest)[i].id < (page + rest)[j].id {
      if i < |page| <= j {
        assert page[i].id <= page[|page| - 1].id;
        assert rest[j - |page|] in rest;
      }
    }
  }

  lemma WasThereJoin(states: nat -> seq<Row>, k: nat, n: nat, after: int, rest: seq<Row>)
    requires Table(states(k)) && |Page(states(k), after)| >= PAGE_SIZE
    requires var page := Page(states(k), after); WasThere(states, k + 1, n, page[|page| - 1].id, rest)
    ensures WasThere(states, k, n + 1, after, Page(states(k), after) + rest)
  {
    var page := Page(states(k), after);
    PageMeaning(states(k), after);
    assert page[|page| - 1] in page;
    forall x <- page + rest ensures x.id > after && exists m: nat :: k <= m < k + n + 1 && x in states(m) {
      if x in page { assert x in states(k); }
    }
  }

  lemma MissesNoneJoin(states: nat -> seq<Row>, k: nat, n: nat, after: int, rest: seq<Row>)
    requires Table(states(k)) && |Page(states(k), after)| >= PAGE_SIZE
    requires var page := Page(states(k), after); MissesNone(states, k + 1, n, page[|page| - 1].id, rest)
    ensures MissesNone(states, k, n + 1, after, Page(states(k), after) + rest)
  {
    var page := Page(states(k), after);
    forall id: Int64 | id > after && forall m: nat :: k <= m < k + n + 1 ==> Lists(states(m), id)
      ensures Lists(page + rest, id)
    {
      var r :| r in states(k) && r.id == id;
      PageMissesNone(states(k), after, r);
      if r in page {
        assert r in page + rest;
      } else {
        assert Lists(rest, id);
        var x :| x in rest && x.id == id;
        assert x in page + rest;
      }
    }
  }

  lemma FairJoin(states: nat -> seq<Row>, k: nat, n: nat, after: int, rest: seq<Row>)
    requires Table(states(k)) && |Page(states(k), after)| >= PAGE_SIZE
    requires var page := Page(states(k), after); Fair(states, k + 1, n, page[|page| - 1].id, rest)
    ensures Fair(states, k, n + 1, after, Page(states(k), after) + rest)
  {
    PageMeaning(states(k), after);
    TableJoin(Page(states(k), after), rest);
    WasThereJoin(states, k, n, after, rest);
    MissesNoneJoin(states, k, n, after, rest);
  }

  /** A full page moves the read on to the next query, after the page's last id. */
  lemma FullPage(server: Server, states: nat -> seq<Row>, k: nat, after: Int64)
    requires Table(states(k)) && server(k, after) == Ok(Page(states(k), after))
    requires |Page(states(k), after)| >= PAGE_SIZE
    ensures var page := Page(states(k), after);
            var next := page[|page| - 1].id;
            && next > after
            && Paged(server, k, after) == Prepend(page, Paged(server, k + 1, next))
            && Queries(server, k, after) == Queries(server, k + 1, next) + 1
  {
    var page := Page(states(k), after);
    PageMeaning(states(k), after);
    assert page[|page| - 1] in page;
  }

  /** However the table changes between queries, only a failed query fails the read, and what is read is
      fair to the states its own queries saw. */
  lemma {:induction false} GrowsAndMissesNothing(server: Server, states: nat -> seq<Row>, k: nat, after: Int64)
    requires ServesChanging(server, states)
    ensures var r := Paged(server, k, after);
            r == Err(QueryFailed) || (r.Ok? && Fair(states, k, Queries(server, k, after), after, r.value))
    decreases INT64_MAX - after
  {
    if server(k, after) != Err(QueryFailed) {
      var page := Page(states(k), after);
      assert Table(states(k)) && server(k, after) == Ok(page);
      if |page| < PAGE_SIZE {
        FairPage(states, k, after);
      } else {
        FullPage(server, states, k, after);
        var next := page[|page| - 1].id;
        GrowsAndMissesNothing(server, states, k + 1, next);
        var rest := Paged(server, k + 1, next);
        if rest.Ok? { FairJoin(states, k, Queries(server, k + 1, next), after, rest.value); }
      }
    }
  }
}
