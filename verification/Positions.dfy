/**
  Positions of `positions.py`: the mutable position records, the manager that owns them, the trailing stop, and the
  synchronisation from the broker's list.  Prices are exact.
*/
module Positions {
  import opened Basics
  import opened Text

  datatype ExitState = NoExit | OrphanedAlert | Closed | Other(name: string)

  /** A position's identity within the manager. */
  datatype Key = Key(account: string, positionId: string)

  datatype Record = Record(
    key: Key, symbol: string, side: Side, quantity: int, averageEntry: real, currentPrice: real,
    stopPrice: Option<real>, trailingStop: Option<real>, unrealized: real, exitState: ExitState, isOpen: bool)

  /** A broker row: `positionId` is the id it is matched by; a missing field keeps or defaults. */
  datatype BrokerRow = BrokerRow(
    positionId: string, symbol: string, side: Side, quantity: Option<int>, averagePrice: Option<real>, ltp: real)

  function Pnl(side: Side, quantity: int, entry: real, price: real): real {
    (price - entry) * quantity as real * (if side == LONG then 1.0 else -1.0)
  }

  /** A long gains what the price rises above the entry, a short what it falls below. */
  lemma PnlMeans(quantity: int, entry: real, price: real)
    ensures Pnl(LONG, quantity, entry, price) == quantity as real * (price - entry)
    ensures Pnl(SHORT, quantity, entry, price) == quantity as real * (entry - price)
  {
  }

  function Refreshed(p: Record): Record {
    if p.isOpen then p.(unrealized := Pnl(p.side, p.quantity, p.averageEntry, p.currentPrice)) else p
  }

  /** A stop moved to `level` if that is tighter for the side. */
  function Tightened(side: Side, stop: Option<real>, level: real): real {
    if stop.None? || (if side == LONG then level > stop.value else level < stop.value) then level else stop.value
  }

  function Trail(side: Side, price: real, distance: real): real {
    if side == LONG then price - distance else price + distance
  }

  function Priced(p: Record, price: real): Record {
    var q := Refreshed(p.(currentPrice := price));
    if q.trailingStop.Some? && q.isOpen
    then q.(stopPrice := Some(Tightened(q.side, q.stopPrice, Trail(q.side, price, q.trailingStop.value))))
    else q
  }

  /** Python's `not self.stop_price` takes a stop of zero for no stop. */
  function StopHit(p: Record): bool {
    && p.isOpen && p.stopPrice.Some? && p.stopPrice.value != 0.0
    && if p.side == LONG then p.currentPrice <= p.stopPrice.value else p.currentPrice >= p.stopPrice.value
  }

  function Adjusted(p: Record, row: BrokerRow): Record {
    var quantity := match row.quantity case Some(n) => n case None => p.quantity;
    var average := match row.averagePrice case Some(a) => a case None => p.averageEntry;
    var q := p.(quantity := quantity, averageEntry := average);
    if quantity == 0 then q.(isOpen := false, exitState := Closed) else q
  }

  function Opened(account: string, row: BrokerRow): Record {
    Refreshed(Record(Key(account, row.positionId), row.symbol, row.side,
                     match row.quantity case Some(n) => n case None => 0,
                     match row.averagePrice case Some(a) => a case None => 0.0,
                     row.ltp, None, None, 0.0, NoExit, true))
  }

  /** An opened position has its row's figures, zero where they are missing, no stop, and the profit of its price. */
  lemma OpenedMeans(account: string, row: BrokerRow)
    ensures var p := Opened(account, row);
            && p.key == Key(account, row.positionId) && p.symbol == row.symbol && p.side == row.side
            && p.quantity == (if row.quantity.Some? then row.quantity.value else 0)
            && p.averageEntry == (if row.averagePrice.Some? then row.averagePrice.value else 0.0)
            && p.currentPrice == row.ltp && p.stopPrice.None? && p.trailingStop.None?
            && p.exitState == NoExit && p.isOpen
            && p.unrealized == p.quantity as real
                               * (if p.side == LONG then p.currentPrice - p.averageEntry
                                  else p.averageEntry - p.currentPrice)
  {
  }

  type Book = map<Key, Record>

  function Upserted(book: Book, p: Record): Book {
    var kept := if p.key in book && book[p.key].exitState.OrphanedAlert? then p.(exitState := OrphanedAlert) else p;
    book[p.key := Refreshed(kept)]
  }

  function SyncedOne(book: Book, account: string, row: BrokerRow): Book {
    var k := Key(account, row.positionId);
    book[k := if k in book then Adjusted(book[k], row) else Opened(account, row)]
  }

  function Synced(book: Book, account: string, rows: seq<BrokerRow>): Book {
    if rows == [] then book
    else SyncedOne(Synced(book, account, rows[..|rows| - 1]), account, rows[|rows| - 1])
  }

  // ---------------------------------------------------------------- the manager

  class Position {
    const key: Key
    const symbol: string
    const side: Side
    var quantity: int
    var averageEntry: real
    var currentPrice: real
    var stopPrice: Option<real>
    var trailingStop: Option<real>
    var unrealized: real
    var exitState: ExitState
    var isOpen: bool

    constructor (r: Record)
      ensures View() == r
    {
      key, symbol, side, quantity, averageEntry := r.key, r.symbol, r.side, r.quantity, r.averageEntry;
      currentPrice, stopPrice, trailingStop := r.currentPrice, r.stopPrice, r.trailingStop;
      unrealized, exitState, isOpen := r.unrealized, r.exitState, r.isOpen;
    }

    ghost function View(): Record
      reads this
    {
      Record(key, symbol, side, quantity, averageEntry, currentPrice, stopPrice, trailingStop, unrealized, exitState,
          isOpen)
    }

    method RefreshPnl()
      modifies this
      ensures View() == Refreshed(old(View()))
    {
      if !isOpen { return; }
      var mult := if side == LONG then 1.0 else -1.0;
      unrealized := (currentPrice - averageEntry) * quantity as real * mult;
    }

    method IsStopHit() returns (hit: bool)
      ensures hit == StopHit(View())
      ensures side == LONG ==>
                (hit <==> isOpen && stopPrice.Some? && stopPrice.value != 0.0 && currentPrice <= stopPrice.value)
      ensures side == SHORT ==>
                (hit <==> isOpen && stopPrice.Some? && stopPrice.value != 0.0 && currentPrice >= stopPrice.value)
    {
      if stopPrice.None? || stopPrice.value == 0.0 || !isOpen { return false; }
      hit := if side == LONG then currentPrice <= stopPrice.value else currentPrice >= stopPrice.value;
    }

    method UpdatePrice(price: real)
      modifies this
      ensures View() == Priced(old(View()), price)
    {
      currentPrice := price;
      RefreshPnl();
      if trailingStop.Some? && isOpen {
        if side == LONG {
          var newStop := price - trailingStop.value;
          if stopPrice.None? || newStop > stopPrice.value { stopPrice := Some(newStop); }
        } else {
          var newStop := price + trailingStop.value;
          if stopPrice.None? || newStop < stopPrice.value { stopPrice := Some(newStop); }
        }
      }
    }

    method AdjustTo(row: BrokerRow)
      modifies this
      ensures View() == Adjusted(old(View()), row)
      ensures quantity == if row.quantity.Some? then row.quantity.value else old(quantity)
      ensures averageEntry == if row.averagePrice.Some? then row.averagePrice.value else old(averageEntry)
      ensures if quantity == 0 then !isOpen && exitState == Closed
              else isOpen == old(isOpen) && exitState == old(exitState)
      ensures currentPrice == old(currentPrice) && unrealized == old(unrealized)
      ensures stopPrice == old(stopPrice) && trailingStop == old(trailingStop)
    {
      if row.quantity.Some? { quantity := row.quantity.value; }
      if row.averagePrice.Some? { averageEntry := row.averagePrice.value; }
      if quantity == 0 {
        isOpen := false;
        exitState := Closed;
      }
    }
  }

  class PositionManager {
    var positions: map<Key, Position>

    constructor ()
      ensures Valid() && View() == map[]
    {
      positions := map[];
    }

    ghost predicate Valid()
      reads this
    {
      forall k | k in positions :: positions[k].key == k
    }

    ghost function View(): Book
      reads this, positions.Values
    {
      map k | k in positions :: positions[k].View()
    }

    method Upsert(pos: Position)
      requires Valid()
      modifies this, pos
      ensures Valid() && positions == old(positions)[pos.key := pos]
      ensures View() == Upserted(old(View()), old(pos.View()))
      ensures var orphaned := pos.key in old(positions) && old(positions[pos.key].exitState) == OrphanedAlert;
              pos.exitState == if orphaned then OrphanedAlert else old(pos.exitState)
    {
      ghost var book, incoming := View(), pos.View();
      if pos.key in positions && positions[pos.key].exitState.OrphanedAlert? { pos.exitState := OrphanedAlert; }
      assert pos.View() == if pos.key in book && book[pos.key].exitState.OrphanedAlert?
                           then incoming.(exitState := OrphanedAlert) else incoming;
      ghost var kept := pos.View();
      hide Refreshed, Pnl;
      positions := positions[pos.key := pos];
      pos.RefreshPnl();
      assert pos.View() == Refreshed(kept);
      assert forall k | k in positions && k != pos.key :: positions[k] != pos;
      ViewPut(book, pos);
    }

    /** The view after one position is filed or changed. */
    lemma ViewPut(book: Book, pos: Position)
      requires pos.key in positions && positions[pos.key] == pos && positions.Keys == book.Keys + {pos.key}
      requires forall k | k in positions && k != pos.key :: positions[k].View() == book[k]
      ensures View() == book[pos.key := pos.View()]
    {
    }

    method UpdatePrice(key: Key, price: real)
      requires Valid()
      modifies positions.Values
      ensures Valid() && positions == old(positions)
      ensures var book := old(View()); View() == if key in book then book[key := Priced(book[key], price)] else book
    {
      if key in positions { positions[key].UpdatePrice(price); }
    }

    method SyncOne(account: string, row: BrokerRow)
      requires Valid()
      modifies this, positions.Values
      ensures Valid() && View() == SyncedOne(old(View()), account, row)
      ensures forall k | k in old(positions) :: k in positions && positions[k] == old(positions[k])
      ensures forall k | k in positions && k !in old(positions) :: fresh(positions[k])
    {
      var k := Key(account, row.positionId);
      if k in positions {
        positions[k].AdjustTo(row);
      } else {
        var quantity := match row.quantity case Some(n) => n case None => 0;
        var average := match row.averagePrice case Some(a) => a case None => 0.0;
        var pos := new Position(Record(k, row.symbol, row.side, quantity, average, row.ltp, None, None, 0.0, NoExit,
            true));
        Upsert(pos);
      }
    }

    method SyncFromBroker(account: string, rows: seq<BrokerRow>)
      requires Valid()
      modifies this, positions.Values
      ensures Valid() && View() == Synced(old(View()), account, rows)
      ensures forall k | k in old(positions) :: k in positions && positions[k] == old(positions[k])
    {
      for i := 0 to |rows|
        invariant Valid() && View() == Synced(old(View()), account, rows[..i])
        invariant forall k | k in old(positions) :: k in positions && positions[k] == old(positions[k])
        invariant forall k | k in positions && k !in old(positions) :: fresh(positions[k])
      {
        assert rows[..i + 1][..i] == rows[..i];
        hide Synced;
        SyncOne(account, rows[i]);
      }
      assert rows[..|rows|] == rows;
    }
  }

  // ---------------------------------------------------------------- the trailing stop

  function PricedAll(p: Record, prices: seq<real>): Record {
    if prices == [] then p else Priced(PricedAll(p, prices[..|prices| - 1]), prices[|prices| - 1])
  }

  /** The best price of a run for the side: the highest for a long, the lowest for a short. */
  function Peak(side: Side, prices: seq<real>): (best: real)
    requires prices != []
    ensures best in prices && forall x | x in prices :: if side == LONG then x <= best else x >= best
  {
    var last := prices[|prices| - 1];
    if |prices| == 1 then last
    else
      var before := Peak(side, prices[..|prices| - 1]);
      assert prices == prices[..|prices| - 1] + [last];
      if (if side == LONG then before >= last else before <= last) then before else last
  }

  /**
    Over any run of prices the stop of an open trailing position is the tighter of the initial stop and the best
    price of the run less the trailing distance; nothing else but price and profit changes.
  */
  lemma {:induction false} TrailingStopIsARatchet(p: Record, prices: seq<real>)
    requires p.isOpen && p.trailingStop.Some? && prices != []
    ensures var q := PricedAll(p, prices);
            && q.stopPrice == Some(Tightened(p.side, p.stopPrice,
                Trail(p.side, Peak(p.side, prices), p.trailingStop.value)))
            && q == p.(currentPrice := prices[|prices| - 1], stopPrice := q.stopPrice,
                       unrealized := Pnl(p.side, p.quantity, p.averageEntry, prices[|prices| - 1]))
    decreases |prices|
  {
    hide Pnl;
    if |prices| > 1 {
      TrailingStopIsARatchet(p, prices[..|prices| - 1]);
    } else {
      assert prices[..0] == [];
    }
  }

  /**
    When the stop fires: after any run of prices, exactly when the last price has come back from the best one by the
    trailing distance or has crossed the initial stop, except that a stop of exactly zero never fires.
  */
  lemma StopFiresIff(p: Record, prices: seq<real>)
    requires p.isOpen && p.trailingStop.Some? && prices != []
    ensures var q, last := PricedAll(p, prices), prices[|prices| - 1];
            StopHit(q) <==>
              && q.stopPrice != Some(0.0)
              && if p.side == LONG
                 then || last <= Peak(LONG, prices) - p.trailingStop.value
                      || (p.stopPrice.Some? && last <= p.stopPrice.value)
                 else || last >= Peak(SHORT, prices) + p.trailingStop.value
                      || (p.stopPrice.Some? && last >= p.stopPrice.value)
  {
    TrailingStopIsARatchet(p, prices);
  }

  /** A stop of exactly zero holds on at any price. */
  lemma ZeroStopNeverFires(p: Record, price: real)
    requires p.isOpen && p.stopPrice == Some(0.0)
    ensures !StopHit(p.(currentPrice := price))
  {
  }

  // ---------------------------------------------------------------- after a synchronisation

  /** The last row for an id. */
  function RowOf(rows: seq<BrokerRow>, id: string): Option<BrokerRow> {
    if rows == [] then None
    else if rows[|rows| - 1].positionId == id then Some(rows[|rows| - 1])
    else RowOf(rows[..|rows| - 1], id)
  }

  predicate DistinctIds(rows: seq<BrokerRow>) {
    forall i, j | 0 <= i < j < |rows| :: rows[i].positionId != rows[j].positionId
  }

  lemma {:induction false} RowOfFinds(rows: seq<BrokerRow>, id: string)
    ensures match RowOf(rows, id)
            case Some(row) => row in rows && row.positionId == id
            case None => forall row | row in rows :: row.positionId != id
    decreases |rows|
  {
    if rows == [] {
    } else {
      RowOfFinds(rows[..|rows| - 1], id);
      assert rows == rows[..|rows| - 1] + [rows[|rows| - 1]];
    }
  }

  /** With distinct broker ids, each position is adjusted to or opened from its own row, and no other is touched. */
  lemma {:induction false} SyncIsPointwise(book: Book, account: string, rows: seq<BrokerRow>, k: Key)
    requires DistinctIds(rows)
    ensures var row := RowOf(rows, k.positionId);
            var synced := Synced(book, account, rows);
            && (k in synced <==> k in book || (k.account == account && row.Some?))
            && (k in synced ==>
                 synced[k] == (if k.account != account || row.None? then book[k]
                               else if k in book then Adjusted(book[k], row.value)
                               else Opened(account, row.value)))
    decreases |rows|
  {
    hide Adjusted, Opened;
    if rows == [] {
    } else {
      var init, last := rows[..|rows| - 1], rows[|rows| - 1];
      SyncIsPointwise(book, account, init, k);
      RowOfFinds(init, k.positionId);
      if k.positionId == last.positionId { assert RowOf(init, k.positionId).None?; }
    }
  }
}
