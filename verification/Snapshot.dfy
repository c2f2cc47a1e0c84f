/**
 The rows written out for the accounts.
 */
module Snapshot {
  import opened Domain
  import opened Ledger
  import LedgerLaws
  import opened Accounts
  import opened Engine
  import opened Amount
  import opened AmountLaws
  import opened Service

  datatype Row = Row(client: ClientId, available: string, held: string, total: string, locked: bool)

  ghost function RowOf(c: ClientId, l: Ledger): Row {
    Row(c, Display(Available(l)), Display(Held(l)), Display(Total(l)), Locked(l))
  }

  function Clients(rows: seq<Row>): seq<ClientId> {
    seq(|rows|, i requires 0 <= i < |rows| => rows[i].client)
  }

  /** `order` lists `clients` without repetition. */
  ghost predicate Enumerates(order: seq<ClientId>, clients: set<ClientId>) {
    && (forall i, j | 0 <= i < j < |order| :: order[i] != order[j])
    && (forall c :: c in order <==> c in clients)
  }

  ghost function Table(books: Books): map<ClientId, Row> {
    map c | c in books :: RowOf(c, books[c])
  }

  /** One row for each client in the table, as the table says, and no other rows. */
  ghost predicate IsSnapshot(rows: seq<Row>, table: map<ClientId, Row>) {
    && Enumerates(Clients(rows), table.Keys)
    && forall i | 0 <= i < |rows| :: rows[i].client in table && rows[i] == table[rows[i].client]
  }

  /** `rows` is a snapshot but for the clients in `todo`; now comes the row of one of them. */
  lemma SnapshotSnoc(rows: seq<Row>, table: map<ClientId, Row>, todo: set<ClientId>, r: Row)
    requires IsSnapshot(rows, table - todo)
    requires r.client in todo && r.client in table && r == table[r.client]
    ensures IsSnapshot(rows + [r], table - (todo - {r.client}))
  {
    assert Clients(rows + [r]) == Clients(rows) + [r.client];
  }

  lemma TableAt(books: Books, c: ClientId)
    requires c in books
    ensures c in Table(books) && Table(books)[c] == RowOf(c, books[c]) && RowOf(c, books[c]).client == c
  {}

  method WriteMessage(account: Account) returns (row: Row)
    requires account.Valid()
    ensures row == RowOf(account.clientId, account.transactions)
    ensures row.client == account.clientId && row.locked == account.locked
    ensures row.available == Display(account.available) && row.held == Display(account.held)
    ensures row.total == Display(account.total)
  {
    row := Row(account.clientId, Display(account.available), Display(account.held),
               Display(account.total), account.locked);
  }

  /** Writes one row for each account, in the iteration order of the account map, which is open. */
  method WriteSnapshot(service: Service, ghost books: Books) returns (rows: seq<Row>)
    requires service.Holds(books)
    ensures IsSnapshot(rows, Table(books))
  {
    rows := [];
    ghost var table := Table(books);
    var todo := service.accounts.Keys;
    while todo != {}
      invariant todo <= service.accounts.Keys && IsSnapshot(rows, table - todo)
    {
      var c :| c in todo;
      var row := WriteMessage(service.accounts[c]);
      TableAt(books, c);
      SnapshotSnoc(rows, table, todo, row);
      rows, todo := rows + [row], todo - {c};
    }
    assert table - todo == table;
  }

  /** What the columns of a snapshot say of the accounts. */
  lemma ColumnsOf(rows: seq<Row>, books: Books)
    requires IsSnapshot(rows, Table(books))
    ensures forall i | 0 <= i < |rows| ::
              && rows[i].client in books
              && var l := books[rows[i].client];
                 && (rows[i].locked <==> exists t :: t in l && l[t].state == ChargedBack)
                 && rows[i].available == Display(Available(l))
                 && rows[i].held == Display(Held(l))
                 && rows[i].total == Display(Total(l))
    ensures forall c | c in books :: exists i :: 0 <= i < |rows| && rows[i].client == c
    ensures forall i, j | 0 <= i < j < |rows| :: rows[i].client != rows[j].client
  {
    forall i | 0 <= i < |rows|
      ensures rows[i].client in books && rows[i] == RowOf(rows[i].client, books[rows[i].client])
    {
      TableAt(books, rows[i].client);
    }
    forall c | c in books ensures exists i :: 0 <= i < |rows| && rows[i].client == c {
      assert c in Clients(rows);
      var i :| 0 <= i < |rows| && Clients(rows)[i] == c;
      assert rows[i].client == c;
    }
    forall i, j | 0 <= i < j < |rows| ensures rows[i].client != rows[j].client {
      assert Clients(rows)[i] != Clients(rows)[j];
    }
  }

  /**
   The printed fields can all be parsed again if and only if the three amounts fit 64 bits, and
   the numbers read back then are the balances, and add up.
   */
  lemma RowsReread(build: Build, c: ClientId, l: Ledger)
    ensures var row := RowOf(c, l);
            var a, h, t := Parse(build, row.available), Parse(build, row.held), Parse(build, row.total);
            && (a != Error && h != Error && t != Error <==>
                InI64(Available(l)) && InI64(Held(l)) && InI64(Total(l)))
            && (a != Error && h != Error && t != Error ==>
                && a == Amount(Available(l)) && h == Amount(Held(l)) && t == Amount(Total(l))
                && t.value == a.value + h.value)
  {
    RoundTrip(build, Available(l));
    RoundTrip(build, Held(l));
    RoundTrip(build, Total(l));
  }

  /** A row tells the balances exactly, whether or not they fit 64 bits. */
  lemma RowsFaithful(c: ClientId, l: Ledger, k: Ledger)
    requires RowOf(c, l) == RowOf(c, k)
    ensures Available(l) == Available(k) && Held(l) == Held(k) && Total(l) == Total(k)
    ensures Locked(l) == Locked(k)
  {
    DisplayInjective(Available(l), Available(k));
    DisplayInjective(Held(l), Held(k));
    DisplayInjective(Total(l), Total(k));
  }

  /** A reachable account, of amounts that a file can hold, prints a total that cannot be read again. */
  ghost predicate Unreadable(build: Build, c: ClientId, l: Ledger) {
    && LedgerLaws.Reachable(l)
    && (forall t | t in l :: InI64(l[t].message.amount))
    && Parse(build, RowOf(c, l).total) == Error
  }

  lemma UnreadableBeyond64Bits(build: Build, c: ClientId, l: Ledger)
    requires LedgerLaws.Reachable(l) && !InI64(Total(l)) && forall t | t in l :: InI64(l[t].message.amount)
    ensures Unreadable(build, c, l)
  {
    RoundTrip(build, Total(l));
  }

  /** Two deposits suffice. */
  lemma UnreadableTotal(build: Build, c: ClientId)
    ensures exists l :: Unreadable(build, c, l)
  {
    var m, n := InputMessage(0, Deposit, c, 1, I64_MAX), InputMessage(1, Deposit, c, 2, I64_MAX);
    var l := LedgerLaws.TwoDeposits(m, n);
    UnreadableBeyond64Bits(build, c, l);
  }
}
