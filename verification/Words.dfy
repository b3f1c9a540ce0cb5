/** Machine words, pages and rounding. */
module Words {

  const WORD: nat := 0x1_0000_0000_0000_0000

  /** Unsigned arithmetic wraps around. */
  function Wrap(x: int): (w: nat)
    ensures w < WORD
    ensures 0 <= x < WORD ==> w == x
  {
    x % WORD
  }

  /**
   * The greatest multiple of the page size at or below `x`; the source masks with the negated page size, a power of
   * two.
   */
  function RoundDown(x: nat, page: nat): (r: nat)
    requires page > 0
    ensures r % page == 0 && r <= x < r + page
  {
    Remainder(x, page);
    x - x % page
  }

  function RoundUp(x: nat, page: nat): (r: nat)
    requires page > 0
  {
    RoundDown(Wrap(x + page - 1), page)
  }

  lemma Remainder(x: int, page: nat)
    requires page > 0
    ensures (x - x % page) % page == 0 && 0 <= x % page < page
  {
    var q := x / page;
    assert x - x % page == page * q;
    Multiple(q, page);
  }

  lemma Multiple(q: int, page: nat)
    requires page > 0
    ensures (page * q) % page == 0
  {
    ModOf(0, q, page);
  }

  lemma {:induction false} ModOf(x: int, q: int, page: nat)
    requires page > 0
    ensures (x + page * q) % page == x % page
    decreases if q < 0 then -q else q
  {
    if q > 0 {
      ModOf(x, q - 1, page);
      ModPlus(x + page * (q - 1), page);
      assert x + page * (q - 1) + page == x + page * q;
    } else if q < 0 {
      ModOf(x, q + 1, page);
      ModPlus(x + page * q, page);
      assert x + page * q + page == x + page * (q + 1);
    } else {
      assert page * q == 0;
    }
  }

  lemma ModPlus(x: int, page: nat)
    requires page > 0
    ensures (x + page) % page == x % page
  {
    var q, r := x / page, x % page;
    assert x + page == page * (q + 1) + r;
    Unique(x + page, page, q + 1, r);
  }

  lemma Unique(x: int, page: nat, q: int, r: int)
    requires page > 0 && x == page * q + r && 0 <= r < page
    ensures x % page == r
  {
    var d := x / page - q;
    assert page * d == r - x % page;
    AtLeastOne(d, page);
    AtLeastOne(-d, page);
    assert page * -d == -(page * d);
  }

  lemma AtLeastOne(d: int, page: nat)
    ensures d >= 1 ==> page * d >= page
  {
  }

  /** Adding or taking away a multiple of the page size does not change an offset within a page. */
  lemma Shift(x: int, y: int, page: nat)
    requires page > 0 && y % page == 0
    ensures (x + y) % page == x % page && (x - y) % page == x % page
  {
    var q := y / page;
    assert y == page * q;
    ModOf(x, q, page);
    ModOf(x, -q, page);
    assert page * -q == -y;
  }

  /** Rounding up gives the least multiple at or above `x`, unless it wraps around. */
  lemma RoundUpLeast(x: nat, page: nat, limit: nat)
    requires page > 0 && x + page <= WORD
    ensures x <= RoundUp(x, page) < x + page && RoundUp(x, page) % page == 0
    ensures limit % page == 0 && x <= limit ==> RoundUp(x, page) <= limit
  {
    if limit % page == 0 && x <= limit {
      var r := RoundUp(x, page);
      Shift(r, limit, page);
      MultiplesApart(r - limit, page);
    }
  }

  lemma MultiplesApart(d: int, page: nat)
    requires page > 0 && d % page == 0 && d < page
    ensures d <= 0
  {
    if d > 0 {
      Unique(d, page, 0, d);
    }
  }

  /** Two numbers at the same offset within a page are a multiple of the page size apart. */
  lemma SameOffset(x: int, y: int, page: nat)
    requires page > 0
    ensures x % page == y % page <==> (x - y) % page == 0
  {
    if x % page == y % page {
      var q := x / page - y / page;
      assert x - y == page * q;
      Multiple(q, page);
    }
    if (x - y) % page == 0 {
      Shift(y, x - y, page);
    }
  }
}
