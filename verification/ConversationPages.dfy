// The list of conversations, a page at a time: latest message first, and after each page a cursor
// that names its last row.
module ConversationPages {
  import opened Options

  // A conversation with the time of its last message; the id decides between equal times.
  datatype Row = Row(at: int, id: nat)

  const MAX_LIMIT: nat := 50

  // a comes before b in the list.
  predicate Before(a: Row, b: Row) {
    a.at > b.at || (a.at == b.at && a.id > b.id)
  }

  ghost predicate Descending(rows: seq<Row>) {
    forall i, j :: 0 <= i < j < |rows| ==> Before(rows[i], rows[j])
  }

  ghost predicate IsFirst(rows: set<Row>, r: Row) {
    r in rows && forall x :: x in rows && x != r ==> Before(r, x)
  }

  lemma {:induction false} FirstExists(rows: set<Row>)
    requires rows != {}
    ensures exists r :: IsFirst(rows, r)
    decreases |rows|
  {
    var r :| r in rows;
    var others := rows - {r};
    if others == {} {
      assert rows == {r};
      assert IsFirst(rows, r);
    } else {
      FirstExists(others);
      var first :| IsFirst(others, first);
      var winner := if Before(r, first) then r else first;
      forall x | x in rows && x != winner
        ensures Before(winner, x)
      {
        assert x != r ==> x in others;
      }
      assert IsFirst(rows, winner);
    }
  }

  ghost function First(rows: set<Row>): (r: Row)
    requires rows != {}
    ensures IsFirst(rows, r)
  {
    FirstExists(rows);
    var r :| IsFirst(rows, r);
    r
  }

  // The rows as the database orders them.
  ghost function Ordered(rows: set<Row>): seq<Row>
    decreases |rows|
  {
    if rows == {} then [] else [First(rows)] + Ordered(rows - {First(rows)})
  }

  ghost function Elements(list: seq<Row>): set<Row> {
    set r | r in list
  }

  lemma {:induction false} OrderedLists(rows: set<Row>)
    ensures Elements(Ordered(rows)) == rows && Descending(Ordered(rows)) && |Ordered(rows)| == |rows|
    decreases |rows|
  {
    if rows != {} {
      var first := First(rows);
      var others := rows - {first};
      OrderedLists(others);
      FirstInFront(first, Ordered(others), others);
      assert rows == {first} + others;
    }
  }

  lemma FirstInFront(first: Row, list: seq<Row>, others: set<Row>)
    requires Descending(list) && Elements(list) == others && first !in others
    requires forall x :: x in others ==> Before(first, x)
    ensures Descending([first] + list) && Elements([first] + list) == {first} + others
  {
    var all := [first] + list;
    forall j | 0 < j < |all|
      ensures Before(first, all[j])
    {
      assert all[j] == list[j - 1] && all[j] in Elements(list);
    }
    forall i, j | 0 <= i < j < |all|
      ensures Before(all[i], all[j])
    {
      assert i > 0 ==> all[i] == list[i - 1] && all[j] == list[j - 1];
    }
  }

  // There is only one descending list of given rows.
  lemma {:induction false} OneDescendingList(list: seq<Row>)
    requires Descending(list)
    ensures Ordered(Elements(list)) == list
    decreases |list|
  {
    if list != [] {
      var rows := Elements(list);
      assert list[0] in rows;
      assert IsFirst(rows, list[0]);
      assert First(rows) == list[0];
      assert Elements(list[1..]) == rows - {list[0]} by {
        assert forall i :: 1 <= i < |list| ==> list[i] != list[0] && list[1..][i - 1] == list[i];
      }
      OneDescendingList(list[1..]);
    }
  }

  // ----- One page -----

  ghost function Rest(rows: set<Row>, cursor: Option<Row>): set<Row> {
    set r | r in rows && (cursor.None? || Before(cursor.value, r))
  }

  function Smaller(a: nat, b: nat): nat {
    if a < b then a else b
  }

  // The query takes one row more than it was asked for, to see whether there are more.
  ghost function Query(rows: set<Row>, cursor: Option<Row>, take: nat): seq<Row> {
    var all := Ordered(Rest(rows, cursor));
    all[..Smaller(take, |all|)]
  }

  datatype Page = Page(items: seq<Row>, next: Option<Row>)

  ghost function PageOf(rows: set<Row>, cursor: Option<Row>, requested: nat): Page {
    var limit := Smaller(requested, MAX_LIMIT);
    var found := Query(rows, cursor, limit + 1);
    var items := if |found| > limit then found[..limit] else found;
    Page(items, if |found| > limit && items != [] then Some(items[|items| - 1]) else None)
  }

  // A page is what comes next in the list; there is a cursor exactly when something comes after it,
  // and that is what follows the cursor.
  lemma PageIsNext(rows: set<Row>, cursor: Option<Row>, requested: nat)
    requires requested > 0
    ensures var page, all := PageOf(rows, cursor, requested), Ordered(Rest(rows, cursor));
      && page.items == all[..Smaller(Smaller(requested, MAX_LIMIT), |all|)]
      && (page.next.Some? <==> |page.items| < |all|)
      && (page.next.Some? ==>
            |page.items| == Smaller(requested, MAX_LIMIT)
            && Ordered(Rest(rows, page.next)) == all[|page.items|..])
  {
    var page, rest := PageOf(rows, cursor, requested), Rest(rows, cursor);
    var all, n := Ordered(rest), |page.items|;
    OrderedLists(rest);
    if page.next.Some? {
      var last := all[n - 1];
      assert page.next == Some(last);
      RestAfter(rows, cursor, all, n);
      OneDescendingList(all[n..]);
    }
  }

  lemma RestAfter(rows: set<Row>, cursor: Option<Row>, all: seq<Row>, n: nat)
    requires 0 < n <= |all| && Descending(all) && Elements(all) == Rest(rows, cursor)
    ensures Rest(rows, Some(all[n - 1])) == Elements(all[n..]) && Descending(all[n..])
  {
    var last := all[n - 1];
    assert last in Elements(all);
    forall r: Row
      ensures r in Rest(rows, Some(last)) <==> r in Elements(all[n..])
    {
      if r in Rest(rows, Some(last)) {
        assert r in Rest(rows, cursor);
        assert r in Elements(all);
        var i :| 0 <= i < |all| && all[i] == r;
        assert all[n..][i - n] == r;
      }
      if r in Elements(all[n..]) {
        var i :| 0 <= i < |all[n..]| && all[n..][i] == r;
        assert all[n + i] == r && r in Elements(all);
      }
    }
  }

  // ----- All pages of a fixed list -----

  ghost function Walk(rows: set<Row>, cursor: Option<Row>, requested: nat): seq<seq<Row>>
    requires requested > 0
    decreases |Ordered(Rest(rows, cursor))|
  {
    PageIsNext(rows, cursor, requested);
    var page := PageOf(rows, cursor, requested);
    if page.next.None? then [page.items] else [page.items] + Walk(rows, page.next, requested)
  }

  function Concat(pages: seq<seq<Row>>): seq<Row> {
    if pages == [] then [] else pages[0] + Concat(pages[1..])
  }

  lemma {:induction false} WalkListsTheRest(rows: set<Row>, cursor: Option<Row>, requested: nat)
    requires requested > 0
    ensures Concat(Walk(rows, cursor, requested)) == Ordered(Rest(rows, cursor))
    decreases |Ordered(Rest(rows, cursor))|
  {
    PageIsNext(rows, cursor, requested);
    var page, all := PageOf(rows, cursor, requested), Ordered(Rest(rows, cursor));
    if page.next.Some? {
      WalkListsTheRest(rows, page.next, requested);
      assert Walk(rows, cursor, requested)[1..] == Walk(rows, page.next, requested);
      assert all == page.items + all[|page.items|..];
    } else {
      assert Concat([page.items]) == page.items + Concat([]);
    }
  }

  // Following the cursors lists every row once, in order, also where rows share a time.
  lemma WalkListsAll(rows: set<Row>, requested: nat)
    requires requested > 0
    ensures var list := Concat(Walk(rows, None, requested));
      Descending(list) && Elements(list) == rows && |list| == |rows|
  {
    WalkListsTheRest(rows, None, requested);
    assert Rest(rows, None) == rows;
    OrderedLists(rows);
  }

  // All pages but the last are full, so no page is fetched in vain but the only page of an empty list.
  lemma {:induction false} WalkLength(rows: set<Row>, cursor: Option<Row>, requested: nat)
    requires requested > 0
    ensures var n, limit, pages := |Ordered(Rest(rows, cursor))|, Smaller(requested, MAX_LIMIT), |Walk(rows, cursor, requested)|;
      if n == 0 then pages == 1 else (pages - 1) * limit < n <= pages * limit
    decreases |Ordered(Rest(rows, cursor))|
  {
    PageIsNext(rows, cursor, requested);
    var page, limit := PageOf(rows, cursor, requested), Smaller(requested, MAX_LIMIT);
    if page.next.Some? {
      WalkLength(rows, page.next, requested);
      OneMorePage(|Walk(rows, page.next, requested)|, limit);
    }
  }

  lemma OneMorePage(pages: nat, limit: nat)
    ensures (pages + 1) * limit == pages * limit + limit && pages * limit == (pages - 1) * limit + limit
  {
  }

  // ----- Pages of a list that changes -----

  // Each page is taken from the rows as they are by then.
  ghost function Visit(tables: seq<set<Row>>, cursor: Option<Row>, requested: nat): seq<Row> {
    if tables == [] then []
    else
      var page := PageOf(tables[0], cursor, requested);
      if page.next.None? then page.items else page.items + Visit(tables[1..], page.next, requested)
  }

  ghost predicate Finished(tables: seq<set<Row>>, cursor: Option<Row>, requested: nat) {
    tables != []
    && var page := PageOf(tables[0], cursor, requested);
       page.next.None? || Finished(tables[1..], page.next, requested)
  }

  lemma DescendingOnce(list: seq<Row>, r: Row)
    requires Descending(list)
    ensures multiset(list)[r] == if r in list then 1 else 0
  {
    if r in list {
      var i :| 0 <= i < |list| && list[i] == r;
      assert list == list[..i] + [r] + list[i + 1..];
      assert r !in list[..i] && r !in list[i + 1..];
    }
  }

  lemma DescendingSplits(list: seq<Row>, n: nat, r: Row)
    requires Descending(list) && n <= |list|
    ensures multiset(list[..n])[r] + (if r in list[n..] then 1 else 0) == if r in list then 1 else 0
  {
    DescendingOnce(list, r);
    DescendingOnce(list[n..], r);
    assert list == list[..n] + list[n..];
  }

  lemma PageTakesOrLeaves(rows: set<Row>, cursor: Option<Row>, requested: nat, r: Row)
    requires requested > 0
    ensures var page := PageOf(rows, cursor, requested);
      multiset(page.items)[r] + (if page.next.Some? && r in Rest(rows, page.next) then 1 else 0)
      == if r in Rest(rows, cursor) then 1 else 0
  {
    var page, rest := PageOf(rows, cursor, requested), Rest(rows, cursor);
    var all, n := Ordered(rest), |page.items|;
    PageIsNext(rows, cursor, requested);
    OrderedLists(rest);
    DescendingSplits(all, n, r);
    assert r in rest <==> r in Elements(all);
    if page.next.Some? {
      RestAfter(rows, cursor, all, n);
      assert r in Rest(rows, page.next) <==> r in Elements(all[n..]);
    } else {
      assert all[n..] == [];
    }
  }

  // Whatever happens to other conversations while pages are followed to the end, a conversation that
  // stays where it is is listed exactly once.
  lemma {:induction false} UntouchedRowIsListedOnce(tables: seq<set<Row>>, cursor: Option<Row>, requested: nat, r: Row)
    requires requested > 0 && Finished(tables, cursor, requested)
    requires forall i :: 0 <= i < |tables| ==> r in tables[i]
    ensures multiset(Visit(tables, cursor, requested))[r]
         == if cursor.None? || Before(cursor.value, r) then 1 else 0
    decreases |tables|
  {
    var page := PageOf(tables[0], cursor, requested);
    PageTakesOrLeaves(tables[0], cursor, requested, r);
    if page.next.Some? {
      UntouchedRowIsListedOnce(tables[1..], page.next, requested, r);
      var later := Visit(tables[1..], page.next, requested);
      assert multiset(page.items + later)[r] == multiset(page.items)[r] + multiset(later)[r];
    }
  }
}
