/**
  Which networks and hosts may be scanned.  Blocks follow section 3.1 of RFC 4632; reading and
  printing addresses is left to an arbitrary notation whose printed forms read back.
 */
module ScanAuthorization {
  import opened Bits
  import opened Options

  datatype Family = V4 | V6

  function Width(f: Family): nat { if f.V4? then 32 else 128 }

  /** An address with a prefix length, before the host bits are cleared. */
  datatype Block = Block(family: Family, address: nat, prefix: nat)

  datatype Host = Host(family: Family, address: nat)

  predicate GoodBlock(b: Block) { b.prefix <= Width(b.family) && b.address < Pow2(Width(b.family)) }

  predicate GoodHost(h: Host) { h.address < Pow2(Width(h.family)) }

  /** What the address library reads and prints; a printed network or host reads back as itself. */
  datatype Notation = Notation(
    readBlock: string -> Option<Block>, showBlock: Block -> string,
    readHost: string -> Option<Host>, showHost: Host -> string)

  ghost predicate Sound(n: Notation) {
    && (forall t :: n.readBlock(t).Some? ==> GoodBlock(n.readBlock(t).value))
    && (forall t :: n.readHost(t).Some? ==> GoodHost(n.readHost(t).value))
    && (forall b :: GoodBlock(b) ==> n.readBlock(n.showBlock(b)) == Some(b))
    && (forall h :: GoodHost(h) ==> n.readHost(n.showHost(h)) == Some(h))
  }

  // ---------- networks ----------

  function HostMask(b: Block): nat { ShiftRight(Ones(Width(b.family)), b.prefix) }

  function NetMask(b: Block): nat { Xor(Ones(Width(b.family)), HostMask(b)) }

  /** The block with its host bits cleared. */
  function Masked(b: Block): Block { b.(address := And(b.address, NetMask(b))) }

  function Broadcast(b: Block): nat { Or(b.address, HostMask(b)) }

  function NumAddresses(b: Block): int { Broadcast(b) - b.address + 1 }

  /** By range, as the library compares networks. */
  predicate SubnetOf(a: Block, b: Block) {
    a.family == b.family && b.address <= a.address && Broadcast(b) >= Broadcast(a)
  }

  /** By mask, as the library looks an address up. */
  predicate HasAddress(b: Block, h: Host) { h.family == b.family && And(h.address, NetMask(b)) == b.address }

  datatype Denial = NotANetwork | NotAHost | TooManyAddresses | Disabled | BadAllowList | Outside

  datatype Result = Authorized(text: string) | Denied(why: Denial)

  function Normalize(n: Notation, cidr: string): Option<Block> {
    match n.readBlock(cidr)
    case None => None
    case Some(b) => Some(Masked(b))
  }

  /** Whether an allowed range holds the target; none when the range is unreadable. */
  function NetworkTest(n: Notation, target: Block): string -> Option<bool> {
    (value: string) =>
      match Normalize(n, value)
      case None => None
      case Some(b) => Some(SubnetOf(target, b))
  }

  function HostTest(n: Notation, host: Host): string -> Option<bool> {
    (value: string) =>
      match Normalize(n, value)
      case None => None
      case Some(b) => Some(HasAddress(b, host))
  }

  /** The first range that holds the target decides; an unreadable one before it fails. */
  function Search(test: string -> Option<bool>, allowed: seq<string>): Option<bool> {
    if allowed == [] then Some(false)
    else
      match test(allowed[0])
      case None => None
      case Some(holds) => if holds then Some(true) else Search(test, allowed[1..])
  }

  predicate Holds(verdict: Option<bool>) { verdict.Some? && verdict.value }

  function Decide(found: Option<bool>, text: string): Result {
    match found
    case None => Denied(BadAllowList)
    case Some(holds) => if holds then Authorized(text) else Denied(Outside)
  }

  function AuthorizeNetwork(n: Notation, cidr: string, allowed: seq<string>, limit: int): Result {
    match Normalize(n, cidr)
    case None => Denied(NotANetwork)
    case Some(target) =>
      if NumAddresses(target) > limit then Denied(TooManyAddresses)
      else if allowed == [] then Denied(Disabled)
      else Decide(Search(NetworkTest(n, target), allowed), n.showBlock(target))
  }

  function AuthorizeHost(n: Notation, target: string, allowed: seq<string>): Result {
    match n.readHost(target)
    case None => Denied(NotAHost)
    case Some(host) =>
      if allowed == [] then Denied(Disabled)
      else Decide(Search(HostTest(n, host), allowed), n.showHost(host))
  }

  // ---------- masks and ranges ----------

  function HostBits(b: Block): nat
    requires b.prefix <= Width(b.family)
  {
    Width(b.family) - b.prefix
  }

  function Size(b: Block): (size: nat)
    requires b.prefix <= Width(b.family)
    ensures size >= 1
  {
    Pow2(HostBits(b))
  }

  /** The address is the first of a whole run of its size. */
  predicate Aligned(b: Block) {
    && b.prefix <= Width(b.family)
    && b.address % Size(b) == 0 && b.address + Size(b) <= Pow2(Width(b.family))
  }

  lemma MasksOf(b: Block)
    requires b.prefix <= Width(b.family)
    ensures HostMask(b) == Size(b) - 1
    ensures NetMask(b) == Mask(Width(b.family), HostBits(b))
  {
    ShiftedOnes(Width(b.family), b.prefix);
    XorClearsOnes(Width(b.family), HostBits(b));
  }

  /** Sizes divide the address space. */
  lemma {:induction false} PowSplits(a: nat, b: nat)
    ensures Pow2(a + b) == Pow2(a) * Pow2(b)
  {
    if a > 0 {
      PowSplits(a - 1, b);
      assert Pow2(a) * Pow2(b) == 2 * (Pow2(a - 1) * Pow2(b));
    }
  }

  lemma WholeRunFits(x: nat, size: nat, count: nat)
    requires size >= 1 && x < count * size
    ensures x - x % size + size <= count * size && (x - x % size) % size == 0
  {
    var q := x / size;
    assert x == q * size + x % size;
    ModIsUnique(x - x % size, size, q, 0);
    AtLeastOnce(q - count + 1, size);
    assert (q - count + 1) * size == q * size - count * size + size;
  }

  /** Clearing host bits goes down to the start of the run; it changes nothing there. */
  lemma MaskingAligns(b: Block)
    requires GoodBlock(b)
    ensures Aligned(Masked(b)) && Masked(b).address == b.address - b.address % Size(b)
    ensures Aligned(b) ==> Masked(b) == b
  {
    MasksOf(b);
    AndWithMask(b.address, Width(b.family), HostBits(b));
    PowSplits(b.prefix, HostBits(b));
    WholeRunFits(b.address, Size(b), Pow2(b.prefix));
  }

  lemma BroadcastIsLast(b: Block)
    requires Aligned(b)
    ensures Broadcast(b) == b.address + Size(b) - 1 && NumAddresses(b) == Size(b)
  {
    MasksOf(b);
    OrWithOnes(b.address, HostBits(b));
  }

  /** An address lies in a run exactly when its own run starts where the run does. */
  lemma InRun(x: nat, start: nat, size: nat)
    requires size >= 1 && start % size == 0
    ensures x - x % size == start <==> start <= x < start + size
  {
    var q := start / size;
    assert start == q * size;
    if start <= x < start + size {
      ModIsUnique(x, size, q, x - start);
    }
  }

  /** The mask test and the range test agree. */
  lemma MaskIsRange(b: Block, h: Host)
    requires Aligned(b) && GoodHost(h)
    ensures HasAddress(b, h) <==> h.family == b.family && b.address <= h.address <= Broadcast(b)
  {
    if h.family == b.family {
      MasksOf(b);
      BroadcastIsLast(b);
      AndWithMask(h.address, Width(b.family), HostBits(b));
      InRun(h.address, b.address, Size(b));
    }
  }

  /** One network is a subnet of another exactly when all of its addresses are in it. */
  lemma SubnetIsInclusion(a: Block, b: Block)
    requires Aligned(a) && Aligned(b)
    ensures SubnetOf(a, b) <==> forall h :: GoodHost(h) && HasAddress(a, h) ==> HasAddress(b, h)
  {
    BroadcastIsLast(a);
    BroadcastIsLast(b);
    forall h | GoodHost(h)
      ensures HasAddress(a, h) <==> h.family == a.family && a.address <= h.address <= Broadcast(a)
      ensures HasAddress(b, h) <==> h.family == b.family && b.address <= h.address <= Broadcast(b)
    {
      MaskIsRange(a, h);
      MaskIsRange(b, h);
    }
    assert GoodHost(Host(a.family, a.address)) && GoodHost(Host(a.family, Broadcast(a)));
  }

  // ---------- what is authorised ----------

  /** A range that holds the target, with nothing unreadable before it. */
  predicate HoldsAt(test: string -> Option<bool>, allowed: seq<string>, i: int) {
    0 <= i < |allowed| && Holds(test(allowed[i])) && forall k :: 0 <= k < i ==> test(allowed[k]).Some?
  }

  lemma {:induction false} HoldingIsFound(test: string -> Option<bool>, allowed: seq<string>, i: int)
    requires HoldsAt(test, allowed, i)
    ensures Holds(Search(test, allowed))
  {
    if i > 0 && !Holds(test(allowed[0])) {
      assert forall k :: 0 <= k < i ==> allowed[1..][k] == allowed[k + 1];
      HoldingIsFound(test, allowed[1..], i - 1);
    }
  }

  lemma {:induction false} FoundHolds(test: string -> Option<bool>, allowed: seq<string>) returns (i: int)
    requires Holds(Search(test, allowed))
    ensures HoldsAt(test, allowed, i)
  {
    i := 0;
    if !Holds(test(allowed[0])) {
      i := FoundHolds(test, allowed[1..]);
      i := i + 1;
      assert forall k :: 0 < k <= i ==> allowed[k] == allowed[1..][k - 1];
    }
  }

  lemma SearchFinds(test: string -> Option<bool>, allowed: seq<string>)
    ensures Holds(Search(test, allowed)) <==> exists i :: HoldsAt(test, allowed, i)
  {
    if i :| HoldsAt(test, allowed, i) {
      HoldingIsFound(test, allowed, i);
    }
    if Holds(Search(test, allowed)) {
      var i := FoundHolds(test, allowed);
    }
  }

  /** Whatever is found by a test is found by one that reads the same and accepts more. */
  lemma {:induction false} SearchFindsMore(test: string -> Option<bool>, easier: string -> Option<bool>, allowed: seq<string>)
    requires forall k :: 0 <= k < |allowed| ==> (easier(allowed[k]).Some? <==> test(allowed[k]).Some?)
    requires forall k :: 0 <= k < |allowed| && Holds(test(allowed[k])) ==> Holds(easier(allowed[k]))
    requires Holds(Search(test, allowed))
    ensures Holds(Search(easier, allowed))
  {
    SearchFinds(test, allowed);
    SearchFinds(easier, allowed);
    var i :| HoldsAt(test, allowed, i);
    assert HoldsAt(easier, allowed, i);
  }

  /** Authorised exactly when readable, small enough, and inside a listed range with nothing unreadable before it. */
  lemma AuthorizedExactly(n: Notation, cidr: string, allowed: seq<string>, limit: int)
    requires Sound(n)
    ensures AuthorizeNetwork(n, cidr, allowed, limit).Authorized? <==>
              && Normalize(n, cidr).Some? && Size(Normalize(n, cidr).value) <= limit
              && exists i :: HoldsAt(NetworkTest(n, Normalize(n, cidr).value), allowed, i)
  {
    if Normalize(n, cidr).Some? {
      var target := Normalize(n, cidr).value;
      MaskingAligns(n.readBlock(cidr).value);
      BroadcastIsLast(target);
      SearchFinds(NetworkTest(n, target), allowed);
    }
  }

  /** An unreadable range, with nothing before it that is unreadable or holds the target. */
  predicate FailsAt(test: string -> Option<bool>, allowed: seq<string>, i: int) {
    0 <= i < |allowed| && test(allowed[i]).None? && forall k :: 0 <= k < i ==> test(allowed[k]).Some? && !test(allowed[k]).value
  }

  lemma {:induction false} FailingIsFound(test: string -> Option<bool>, allowed: seq<string>, i: int)
    requires FailsAt(test, allowed, i)
    ensures Search(test, allowed).None?
  {
    if i > 0 {
      assert forall k :: 0 <= k < i ==> allowed[1..][k] == allowed[k + 1];
      FailingIsFound(test, allowed[1..], i - 1);
    }
  }

  lemma {:induction false} FoundFailing(test: string -> Option<bool>, allowed: seq<string>) returns (i: int)
    requires Search(test, allowed).None?
    ensures FailsAt(test, allowed, i)
  {
    i := 0;
    if test(allowed[0]).Some? {
      i := FoundFailing(test, allowed[1..]);
      i := i + 1;
      assert forall k :: 0 < k <= i ==> allowed[k] == allowed[1..][k - 1];
    }
  }

  /** Why a network is refused: size first, then a missing list, then an unreadable range before any that holds it. */
  lemma DeniedExactly(n: Notation, cidr: string, allowed: seq<string>, limit: int)
    requires Sound(n) && Normalize(n, cidr).Some?
    ensures var target := Normalize(n, cidr).value;
            var result := AuthorizeNetwork(n, cidr, allowed, limit);
            && (result == Denied(TooManyAddresses) <==> Size(target) > limit)
            && (result == Denied(Disabled) <==> Size(target) <= limit && allowed == [])
            && (result == Denied(BadAllowList) <==>
                  Size(target) <= limit && exists i :: FailsAt(NetworkTest(n, target), allowed, i))
  {
    var target := Normalize(n, cidr).value;
    var test := NetworkTest(n, target);
    ListedRangesAlign(n, cidr);
    BroadcastIsLast(target);
    if i :| FailsAt(test, allowed, i) {
      FailingIsFound(test, allowed, i);
    }
    if Search(test, allowed).None? {
      var i := FoundFailing(test, allowed);
    }
  }

  /** What comes back is a whole network within the limit, and authorising it again gives the same. */
  lemma AuthorizedIsCanonical(n: Notation, cidr: string, allowed: seq<string>, limit: int) returns (target: Block)
    requires Sound(n) && AuthorizeNetwork(n, cidr, allowed, limit).Authorized?
    ensures Normalize(n, cidr) == Some(target)
    ensures Aligned(target) && Size(target) <= limit
    ensures AuthorizeNetwork(n, cidr, allowed, limit) == Authorized(n.showBlock(target))
    ensures AuthorizeNetwork(n, n.showBlock(target), allowed, limit) == Authorized(n.showBlock(target))
  {
    target := Normalize(n, cidr).value;
    MaskingAligns(n.readBlock(cidr).value);
    BroadcastIsLast(target);
    MaskingAligns(target);
  }

  lemma ListedRangesAlign(n: Notation, value: string)
    requires Sound(n) && Normalize(n, value).Some?
    ensures Aligned(Normalize(n, value).value)
  {
    MaskingAligns(n.readBlock(value).value);
  }

  lemma HostTestIsEasier(n: Notation, target: Block, h: Host, value: string)
    requires Sound(n) && Aligned(target) && GoodHost(h) && HasAddress(target, h)
    ensures HostTest(n, h)(value).Some? <==> NetworkTest(n, target)(value).Some?
    ensures Holds(NetworkTest(n, target)(value)) ==> Holds(HostTest(n, h)(value))
  {
    if Normalize(n, value).Some? {
      ListedRangesAlign(n, value);
      SubnetIsInclusion(target, Normalize(n, value).value);
    }
  }

  /** Every address of an authorised network is an authorised host. */
  lemma AuthorizedHosts(n: Notation, cidr: string, allowed: seq<string>, limit: int, h: Host)
    requires Sound(n) && AuthorizeNetwork(n, cidr, allowed, limit).Authorized?
    requires GoodHost(h) && HasAddress(Normalize(n, cidr).value, h)
    ensures AuthorizeHost(n, n.showHost(h), allowed) == Authorized(n.showHost(h))
  {
    var target := Normalize(n, cidr).value;
    ListedRangesAlign(n, cidr);
    forall k | 0 <= k < |allowed|
      ensures HostTest(n, h)(allowed[k]).Some? <==> NetworkTest(n, target)(allowed[k]).Some?
      ensures Holds(NetworkTest(n, target)(allowed[k])) ==> Holds(HostTest(n, h)(allowed[k]))
    {
      HostTestIsEasier(n, target, h, allowed[k]);
    }
    SearchFindsMore(NetworkTest(n, target), HostTest(n, h), allowed);
  }

  /** A host is authorised exactly when it is readable and inside a listed range with nothing unreadable before it. */
  lemma AuthorizedHostExactly(n: Notation, text: string, allowed: seq<string>)
    ensures AuthorizeHost(n, text, allowed).Authorized? <==>
              n.readHost(text).Some? && exists i :: HoldsAt(HostTest(n, n.readHost(text).value), allowed, i)
  {
    if n.readHost(text).Some? {
      SearchFinds(HostTest(n, n.readHost(text).value), allowed);
    }
  }

  lemma SmallerSubnet(a: Block, b: Block)
    requires Aligned(a) && Aligned(b) && SubnetOf(a, b)
    ensures NumAddresses(a) <= NumAddresses(b)
  {
    BroadcastIsLast(a);
    BroadcastIsLast(b);
  }

  lemma SubnetTestIsEasier(n: Notation, a: Block, b: Block, value: string)
    requires SubnetOf(a, b)
    ensures NetworkTest(n, a)(value).Some? <==> NetworkTest(n, b)(value).Some?
    ensures Holds(NetworkTest(n, b)(value)) ==> Holds(NetworkTest(n, a)(value))
  {}

  /** Every subnet of an authorised network is authorised as well. */
  lemma AuthorizedSubnets(n: Notation, cidr: string, sub: string, allowed: seq<string>, limit: int)
    requires Sound(n) && AuthorizeNetwork(n, cidr, allowed, limit).Authorized?
    requires Normalize(n, sub).Some? && SubnetOf(Normalize(n, sub).value, Normalize(n, cidr).value)
    ensures AuthorizeNetwork(n, sub, allowed, limit) == Authorized(n.showBlock(Normalize(n, sub).value))
  {
    var a, b := Normalize(n, sub).value, Normalize(n, cidr).value;
    ListedRangesAlign(n, cidr);
    ListedRangesAlign(n, sub);
    SmallerSubnet(a, b);
    forall k | 0 <= k < |allowed|
      ensures NetworkTest(n, a)(allowed[k]).Some? <==> NetworkTest(n, b)(allowed[k]).Some?
      ensures Holds(NetworkTest(n, b)(allowed[k])) ==> Holds(NetworkTest(n, a)(allowed[k]))
    {
      SubnetTestIsEasier(n, a, b, allowed[k]);
    }
    SearchFindsMore(NetworkTest(n, b), NetworkTest(n, a), allowed);
  }
}
