/**
  Authorisation in terms of leading bits: a listed range covers what agrees with it on the bits
  of its prefix.
 */
module ScanRanges {
  import opened Bits
  import opened Options
  import opened ScanAuthorization

  /** The address has the leading bits of the range. */
  predicate CoversAddress(range: Block, family: Family, address: nat)
    requires GoodBlock(range)
  {
    family == range.family && address / Size(range) == range.address / Size(range)
  }

  /** So have all addresses of the block. */
  predicate CoversBlock(range: Block, b: Block)
    requires GoodBlock(range)
  {
    range.prefix <= b.prefix && CoversAddress(range, b.family, b.address)
  }

  // ---------- arithmetic ----------

  lemma SameRun(x: nat, y: nat, size: nat)
    requires size >= 1
    ensures x - x % size == y - y % size <==> x / size == y / size
  {
    assert x == (x / size) * size + x % size;
    assert y == (y / size) * size + y % size;
    if x - x % size == y - y % size {
      ModIsUnique(x - x % size, size, x / size, 0);
      ModIsUnique(y - y % size, size, y / size, 0);
    }
  }

  /** Going down to the start of a run does not leave an interval of whole runs. */
  lemma FloorStaysBetween(x: nat, size: nat, low: nat, high: nat)
    requires size >= 1 && low % size == 0 && high % size == 0 && low <= x < high
    ensures low <= x - x % size && x - x % size + size <= high
  {
    var q, a, b := x / size, low / size, high / size;
    assert x == q * size + x % size && low == a * size && high == b * size;
    Ordered(a, q, size);
    Ordered(q + 1, b, size);
    assert (q + 1) * size == q * size + size;
  }

  /** Fewer runs are shorter. */
  lemma Ordered(a: int, b: int, size: nat)
    requires size >= 1
    ensures a <= b ==> a * size <= b * size
    ensures a > b ==> a * size >= b * size + size
  {
    AtLeastOnce(b - a, size);
    assert (b - a) * size == b * size - a * size;
  }

  lemma {:induction false} PowIsStrict(h: nat, w: nat)
    requires h < w
    ensures Pow2(h) < Pow2(w)
  {
    if h < w - 1 { PowIsStrict(h, w - 1); }
  }

  lemma MultipleOf(x: nat, size: nat, count: nat)
    requires size >= 1 && count >= 1 && x % (count * size) == 0
    ensures x % size == 0
  {
    var q := x / (count * size);
    assert x == q * (count * size) == (q * count) * size;
    ModIsUnique(x, size, q * count, 0);
  }

  // ---------- the tests ----------

  lemma SizeFits(b: Block)
    requires GoodBlock(b)
    ensures b.address - b.address % Size(b) + Size(b) <= Pow2(Width(b.family))
  {
    MaskingAligns(b);
  }

  /** The mask test of a listed range compares leading bits. */
  lemma HostTestComparesBits(range: Block, h: Host)
    requires GoodBlock(range) && GoodHost(h)
    ensures HasAddress(Masked(range), h) <==> CoversAddress(range, h.family, h.address)
  {
    var m := Masked(range);
    MaskingAligns(range);
    MaskIsRange(m, h);
    BroadcastIsLast(m);
    InRun(h.address, m.address, Size(range));
    SameRun(h.address, range.address, Size(range));
  }

  lemma SubnetIsRange(a: Block, b: Block)
    requires GoodBlock(a) && GoodBlock(b)
    ensures SubnetOf(Masked(a), Masked(b)) <==>
              && a.family == b.family
              && b.address - b.address % Size(b) <= a.address - a.address % Size(a)
              && a.address - a.address % Size(a) + Size(a) <= b.address - b.address % Size(b) + Size(b)
  {
    MaskingAligns(a);
    MaskingAligns(b);
    BroadcastIsLast(Masked(a));
    BroadcastIsLast(Masked(b));
  }

  lemma StartIsMultiple(x: nat, size: nat)
    requires size >= 1
    ensures x % size <= x && (x - x % size) % size == 0 && (x - x % size + size) % size == 0
  {
    var q := x / size;
    assert x == q * size + x % size;
    ModIsUnique(x - x % size, size, q, 0);
    assert (q + 1) * size == q * size + size;
    ModIsUnique(x - x % size + size, size, q + 1, 0);
  }

  lemma CoveredIsInside(range: Block, b: Block)
    requires GoodBlock(range) && GoodBlock(b) && CoversBlock(range, b)
    ensures SubnetOf(Masked(b), Masked(range))
  {
    var large, small := Size(range), Size(b);
    var start := range.address - range.address % large;
    SubnetIsRange(b, range);
    SameRun(b.address, range.address, large);
    PowSplits(b.prefix - range.prefix, HostBits(b));
    StartIsMultiple(range.address, large);
    MultipleOf(start, small, Pow2(b.prefix - range.prefix));
    MultipleOf(start + large, small, Pow2(b.prefix - range.prefix));
    FloorStaysBetween(b.address, small, start, start + large);
  }

  lemma LeadingBitsAgree(x: nat, y: nat, small: nat, large: nat)
    requires small >= 1 && large >= 1
    requires y - y % large <= x - x % small && x - x % small + small <= y - y % large + large
    ensures x / large == y / large && small <= large
  {
    StartIsMultiple(y, large);
    InRun(x, y - y % large, large);
    SameRun(x, y, large);
  }

  lemma LargerIsShorter(a: Block, b: Block)
    requires GoodBlock(a) && GoodBlock(b) && a.family == b.family && Size(a) <= Size(b)
    ensures b.prefix <= a.prefix
  {
    if a.prefix < b.prefix { PowIsStrict(HostBits(b), HostBits(a)); }
  }

  lemma InsideIsCovered(range: Block, b: Block)
    requires GoodBlock(range) && GoodBlock(b) && SubnetOf(Masked(b), Masked(range))
    ensures CoversBlock(range, b)
  {
    SubnetIsRange(b, range);
    LeadingBitsAgree(b.address, range.address, Size(b), Size(range));
    LargerIsShorter(b, range);
  }

  /** The range test of a listed network compares prefixes and leading bits. */
  lemma NetworkTestComparesBits(range: Block, b: Block)
    requires GoodBlock(range) && GoodBlock(b)
    ensures SubnetOf(Masked(b), Masked(range)) <==> CoversBlock(range, b)
  {
    if SubnetOf(Masked(b), Masked(range)) { InsideIsCovered(range, b); }
    if CoversBlock(range, b) { CoveredIsInside(range, b); }
  }

  // ---------- main results ----------

  /** Everything listed before place `i` is readable. */
  ghost predicate ReadableBefore(n: Notation, allowed: seq<string>, i: int)
    requires i <= |allowed|
  {
    forall k :: 0 <= k < i ==> n.readBlock(allowed[k]).Some?
  }

  ghost predicate ListsBlock(n: Notation, allowed: seq<string>, i: int, b: Block)
    requires Sound(n)
  {
    && 0 <= i < |allowed| && ReadableBefore(n, allowed, i)
    && n.readBlock(allowed[i]).Some? && CoversBlock(n.readBlock(allowed[i]).value, b)
  }

  ghost predicate ListsAddress(n: Notation, allowed: seq<string>, i: int, h: Host)
    requires Sound(n)
  {
    && 0 <= i < |allowed| && ReadableBefore(n, allowed, i)
    && n.readBlock(allowed[i]).Some? && CoversAddress(n.readBlock(allowed[i]).value, h.family, h.address)
  }

  lemma ListedBlockHolds(n: Notation, allowed: seq<string>, i: int, b: Block)
    requires Sound(n) && GoodBlock(b)
    ensures HoldsAt(NetworkTest(n, Masked(b)), allowed, i) <==> ListsBlock(n, allowed, i, b)
  {
    if 0 <= i < |allowed| && n.readBlock(allowed[i]).Some? {
      NetworkTestComparesBits(n.readBlock(allowed[i]).value, b);
    }
  }

  lemma ListedAddressHolds(n: Notation, allowed: seq<string>, i: int, h: Host)
    requires Sound(n) && GoodHost(h)
    ensures HoldsAt(HostTest(n, h), allowed, i) <==> ListsAddress(n, allowed, i, h)
  {
    if 0 <= i < |allowed| && n.readBlock(allowed[i]).Some? {
      HostTestComparesBits(n.readBlock(allowed[i]).value, h);
    }
  }

  /**
    A network may be scanned exactly when it is readable, has at most `limit` addresses, and
    some listed range, with only readable ones before it, has no longer prefix and the same
    leading bits.
   */
  lemma NetworkAuthorizedExactly(n: Notation, cidr: string, allowed: seq<string>, limit: int)
    requires Sound(n)
    ensures AuthorizeNetwork(n, cidr, allowed, limit).Authorized? <==>
              && n.readBlock(cidr).Some?
              && var b := n.readBlock(cidr).value;
                 Size(b) <= limit && exists i :: ListsBlock(n, allowed, i, b)
  {
    AuthorizedExactly(n, cidr, allowed, limit);
    if n.readBlock(cidr).Some? {
      var b := n.readBlock(cidr).value;
      forall i
        ensures HoldsAt(NetworkTest(n, Masked(b)), allowed, i) <==> ListsBlock(n, allowed, i, b)
      {
        ListedBlockHolds(n, allowed, i, b);
      }
    }
  }

  /** A host may be scanned exactly when it is readable and some such range has its leading bits. */
  lemma HostAuthorizedExactly(n: Notation, text: string, allowed: seq<string>)
    requires Sound(n)
    ensures AuthorizeHost(n, text, allowed).Authorized? <==>
              n.readHost(text).Some? && exists i :: ListsAddress(n, allowed, i, n.readHost(text).value)
    ensures AuthorizeHost(n, text, allowed).Authorized? ==>
              && n.readHost(text).Some?
              && AuthorizeHost(n, text, allowed).text == n.showHost(n.readHost(text).value)
  {
    AuthorizedHostExactly(n, text, allowed);
    if n.readHost(text).Some? {
      var h := n.readHost(text).value;
      forall i
        ensures HoldsAt(HostTest(n, h), allowed, i) <==> ListsAddress(n, allowed, i, h)
      {
        ListedAddressHolds(n, allowed, i, h);
      }
    }
  }

  /** Why a host is refused: unreadable, nothing listed, or an unreadable range before any that covers it; outside otherwise. */
  lemma HostDeniedExactly(n: Notation, text: string, allowed: seq<string>)
    requires Sound(n)
    ensures var result := AuthorizeHost(n, text, allowed);
            && (result == Denied(NotAHost) <==> n.readHost(text).None?)
            && (result == Denied(Disabled) <==> n.readHost(text).Some? && allowed == [])
            && (result == Denied(BadAllowList) <==>
                  n.readHost(text).Some? && exists i :: FailsAt(HostTest(n, n.readHost(text).value), allowed, i))
  {
    if n.readHost(text).Some? {
      var test := HostTest(n, n.readHost(text).value);
      if i :| FailsAt(test, allowed, i) { FailingIsFound(test, allowed, i); }
      if Search(test, allowed).None? { var i := FoundFailing(test, allowed); }
    }
  }
}
