/** The nonce table of cos_lib/cosd_grant_store.py: a row per accepted nonce, with its expiry. */
module NonceStore {
  import opened Common

  type Rows = map<string, int>

  datatype Insert = Recorded | Duplicate | Failed

  /** SQLite integers have 64 bits; binding a larger one raises. */
  predicate Storable(exp: int) {
    -0x8000_0000_0000_0000 <= exp < 0x8000_0000_0000_0000
  }

  function Evicted(rows: Rows, now: int): Rows {
    map n | n in rows && rows[n] > now :: rows[n]
  }

  function MarkAnswer(rows: Rows, nonce: string, exp: int): Insert {
    if !Storable(exp) then Failed else if nonce in rows then Duplicate else Recorded
  }

  function Marked(rows: Rows, maxRows: int, nonce: string, exp: int, now: int): Rows {
    if MarkAnswer(rows, nonce, exp).Recorded? then
      var added := rows[nonce := exp];
      if |added| > maxRows / 2 then Evicted(added, now) else added
    else rows
  }

  class GrantNonceStore {
    var rows: Rows
    const maxRows: int

    constructor (maxRows: int)
      ensures rows == map[] && this.maxRows == maxRows
    {
      rows := map[];
      this.maxRows := maxRows;
    }

    method EvictExpired(now: int) returns (deleted: nat)
      modifies this
      ensures rows == Evicted(old(rows), now)
      ensures forall n :: n in rows <==> n in old(rows) && old(rows)[n] > now
      ensures forall n :: n in rows ==> rows[n] == old(rows)[n]
      ensures deleted == |set n | n in old(rows) && old(rows)[n] <= now|
    {
      var kept := map n | n in rows && rows[n] > now :: rows[n];
      EvictionCounts(rows, now);
      deleted := |rows| - |kept|;
      rows := kept;
    }

    method MarkSeen(nonce: string, exp: int, now: int) returns (r: Insert)
      modifies this
      ensures r == MarkAnswer(old(rows), nonce, exp)
      ensures rows == Marked(old(rows), maxRows, nonce, exp, now)
    {
      if !Storable(exp) {
        return Failed;
      }
      if nonce in rows {
        return Duplicate;
      }
      rows := rows[nonce := exp];
      if |rows| > maxRows / 2 {
        var _ := EvictExpired(now);
      }
      return Recorded;
    }
  }

  lemma EvictionCounts(rows: Rows, now: int)
    ensures |Evicted(rows, now)| + |set n | n in rows && rows[n] <= now| == |rows|
  {
    var gone := set n | n in rows && rows[n] <= now;
    assert rows.Keys == Evicted(rows, now).Keys + gone;
    assert |rows| == |rows.Keys|;
  }

  /** What `mark_seen` answers, and which rows there are afterwards. */
  lemma MarkExactly(rows: Rows, maxRows: int, nonce: string, exp: int, now: int)
    ensures var after := Marked(rows, maxRows, nonce, exp, now);
            if exp < -0x8000_0000_0000_0000 || exp > 0x7fff_ffff_ffff_ffff then
              MarkAnswer(rows, nonce, exp) == Failed && after == rows
            else if nonce in rows then
              MarkAnswer(rows, nonce, exp) == Duplicate && after == rows
            else
              && MarkAnswer(rows, nonce, exp) == Recorded
              && (forall n :: n in after <==>
                    && (n == nonce || n in rows)
                    && (|rows| + 1 > maxRows / 2 ==> (if n == nonce then exp else rows[n]) > now))
              && (forall n :: n in after ==> after[n] == if n == nonce then exp else rows[n])
  {
    assert nonce !in rows ==> |rows[nonce := exp]| == |rows| + 1;
  }

  /** A nonce that is not refused stays known until its own expiry has passed. */
  lemma RowsOnlyExpire(rows: Rows, maxRows: int, nonce: string, exp: int, now: int)
    ensures var after := Marked(rows, maxRows, nonce, exp, now);
            && (forall n :: n in rows && rows[n] > now ==> n in after && after[n] == rows[n])
            && (forall n :: n in after && n !in rows ==> n == nonce && after[n] == exp)
            && (MarkAnswer(rows, nonce, exp).Recorded? && exp > now ==> nonce in after && after[nonce] == exp)
  {
  }

  /** `max_rows` holds after an insertion exactly when the rows that have not expired are that few. */
  lemma MaxRowsHoldsExactly(rows: Rows, maxRows: int, nonce: string, exp: int, now: int)
    requires MarkAnswer(rows, nonce, exp).Recorded?
    ensures var unexpired := set n | n in rows && rows[n] > now;
            |Marked(rows, maxRows, nonce, exp, now)| <= maxRows <==>
            |unexpired| + (if exp > now then 1 else 0) <= maxRows
  {
    EvictionCounts(rows[nonce := exp], now);
    UnexpiredAfter(rows, nonce, exp, now);
  }

  lemma UnexpiredAfter(rows: Rows, nonce: string, exp: int, now: int)
    requires nonce !in rows
    ensures |Evicted(rows[nonce := exp], now)|
         == |set n | n in rows && rows[n] > now| + if exp > now then 1 else 0
  {
    UnexpiredRows(rows, now);
    if exp > now {
      assert Evicted(rows[nonce := exp], now) == Evicted(rows, now)[nonce := exp];
    } else {
      assert Evicted(rows[nonce := exp], now) == Evicted(rows, now);
    }
  }

  lemma UnexpiredRows(rows: Rows, now: int)
    ensures |Evicted(rows, now)| == |set n | n in rows && rows[n] > now|
  {
    assert Evicted(rows, now).Keys == set n | n in rows && rows[n] > now;
    assert |Evicted(rows, now)| == |Evicted(rows, now).Keys|;
  }

  datatype Mark = Mark(nonce: string, exp: int, now: int)

  /** The table after a run of insertions. */
  function MarkAll(rows: Rows, maxRows: int, marks: seq<Mark>): Rows {
    if marks == [] then rows
    else
      var last := marks[|marks| - 1];
      Marked(MarkAll(rows, maxRows, marks[..|marks| - 1]), maxRows, last.nonce, last.exp, last.now)
  }

  /** For any maximum and any m there is a run from the empty table, all at one moment and with
      distinct nonces, that leaves m rows. */
  lemma MaxRowsIsNoBound(maxRows: int, m: nat, now: int)
    requires Storable(now + 1)
    ensures exists marks: seq<Mark> ::
              && |marks| == m && (forall k <- marks :: k.now == now && k.exp == now + 1)
              && |MarkAll(map[], maxRows, marks)| == m
  {
    var marks := FillRun(maxRows, m, now);
  }

  function Name(n: nat): (s: string)
    ensures |s| == n
  {
    seq(n, _ => 'a')
  }

  lemma {:induction false} FillRun(maxRows: int, m: nat, now: int) returns (marks: seq<Mark>)
    requires Storable(now + 1)
    ensures |marks| == m && forall k <- marks :: k.now == now && k.exp == now + 1
    ensures var rows := MarkAll(map[], maxRows, marks);
            |rows| == m && forall n <- rows :: |n| < m && rows[n] == now + 1
  {
    if m == 0 {
      return [];
    }
    var before := FillRun(maxRows, m - 1, now);
    marks := before + [Mark(Name(m - 1), now + 1, now)];
    assert marks[..m - 1] == before;
    OneMoreStays(MarkAll(map[], maxRows, before), maxRows, m, now);
  }

  lemma OneMoreStays(rows: Rows, maxRows: int, m: nat, now: int)
    requires Storable(now + 1) && m > 0 && |rows| == m - 1
    requires forall n <- rows :: |n| < m - 1 && rows[n] == now + 1
    ensures var after := Marked(rows, maxRows, Name(m - 1), now + 1, now);
            |after| == m && forall n <- after :: |n| < m && after[n] == now + 1
  {
    assert Name(m - 1) !in rows;
    FreshStays(rows, maxRows, Name(m - 1), now);
  }

  lemma FreshStays(rows: Rows, maxRows: int, nonce: string, now: int)
    requires Storable(now + 1) && nonce !in rows
    requires forall n <- rows :: rows[n] == now + 1
    ensures Marked(rows, maxRows, nonce, now + 1, now) == rows[nonce := now + 1]
  {
    var added := rows[nonce := now + 1];
    assert Evicted(added, now) == added;
  }
}
