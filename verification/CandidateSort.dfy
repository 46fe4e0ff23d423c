/**
 The order of a candidate's transactions. The comparator compares nonces within a sender and calls
 any two different senders equal, which is not an order on most lists.
*/
module CandidateSort {
  import opened Types
  import opened Blocks

  datatype Ordering = Before | Same | Behind

  function CompareNonce(a: nat, b: nat): Ordering {
    if a < b then Before else if a == b then Same else Behind
  }

  /** The closure given to `sort_by`. */
  function Compare(a: Tx, b: Tx): Ordering {
    if a.from == b.from then CompareNonce(a.nonce, b.nonce) else Same
  }

  predicate Less(a: Tx, b: Tx) {
    Compare(a, b) == Before
  }

  predicate Tied(a: Tx, b: Tx) {
    Compare(a, b) == Same
  }

  /** What `sort_by` needs of the comparator on this list. */
  ghost predicate StrictWeakOrder(txs: seq<Tx>) {
    && (forall a, b | a in txs && b in txs :: Less(a, b) <==> Compare(b, a) == Behind)
    && (forall a, b, c | a in txs && b in txs && c in txs && Less(a, b) && Less(b, c) :: Less(a, c))
    && (forall a, b, c | a in txs && b in txs && c in txs && Tied(a, b) && Tied(b, c) :: Tied(a, c))
  }

  predicate OneSender(txs: seq<Tx>) {
    forall i, j | 0 <= i < |txs| && 0 <= j < |txs| :: txs[i].from == txs[j].from
  }

  predicate OneNonceEach(txs: seq<Tx>) {
    forall i, j | 0 <= i < |txs| && 0 <= j < |txs| && txs[i].from == txs[j].from :: txs[i].nonce == txs[j].nonce
  }

  lemma TieThroughStranger(txs: seq<Tx>, a: Tx, b: Tx, other: Tx)
    requires a in txs && b in txs && other in txs
    requires a.from == b.from && a.nonce != b.nonce && other.from != a.from
    ensures !StrictWeakOrder(txs)
  {
    assert Tied(a, other) && Tied(other, b) && !Tied(a, b);
  }

  /** The comparator is an order exactly on lists of one sender and on lists where no sender has two nonces. */
  lemma OrderIff(txs: seq<Tx>)
    ensures StrictWeakOrder(txs) <==> OneSender(txs) || OneNonceEach(txs)
  {
    if !OneSender(txs) && !OneNonceEach(txs) {
      var i, j :| 0 <= i < |txs| && 0 <= j < |txs| && txs[i].from == txs[j].from && txs[i].nonce != txs[j].nonce;
      var k, l :| 0 <= k < |txs| && 0 <= l < |txs| && txs[k].from != txs[l].from;
      TieThroughStranger(txs, txs[i], txs[j], if txs[k].from != txs[i].from then txs[k] else txs[l]);
    }
  }

  // ----- Stable sorting ----------------------------------------------------------------------------------

  /** `out[i]` is the `at[i]`-th transaction of `txs`; later ones are larger, or tied and from further back. */
  ghost predicate StablySorted(txs: seq<Tx>, out: seq<Tx>, at: seq<nat>) {
    && |at| == |out| == |txs|
    && (forall i | 0 <= i < |at| :: at[i] < |txs| && out[i] == txs[at[i]])
    && (forall i, j | 0 <= i < j < |at| :: at[i] != at[j])
    && (forall i, j | 0 <= i < j < |at| :: Less(out[i], out[j]) || (Tied(out[i], out[j]) && at[i] < at[j]))
  }

  /** What `sort_by` may return: a permutation, and a stable sort when the comparator is an order. */
  ghost predicate SortResult(txs: seq<Tx>, out: seq<Tx>) {
    && multiset(out) == multiset(txs)
    && (StrictWeakOrder(txs) ==> exists at :: StablySorted(txs, out, at))
  }

  lemma {:induction false} AscendingIsIdentity(at: seq<nat>, i: nat)
    requires i < |at| && forall k | 0 <= k < |at| :: at[k] < |at|
    requires forall k, l | 0 <= k < l < |at| :: at[k] < at[l]
    ensures at[i] == i
  {
    AtLeast(at, i);
    AtMost(at, i);
  }

  lemma {:induction false} AtLeast(at: seq<nat>, i: nat)
    requires i < |at| && forall k, l | 0 <= k < l < |at| :: at[k] < at[l]
    ensures at[i] >= i
  {
    if i > 0 {
      AtLeast(at, i - 1);
    }
  }

  lemma {:induction false} AtMost(at: seq<nat>, i: nat)
    requires i < |at| && forall k | 0 <= k < |at| :: at[k] < |at|
    requires forall k, l | 0 <= k < l < |at| :: at[k] < at[l]
    ensures at[i] <= i
    decreases |at| - i
  {
    if i < |at| - 1 {
      AtMost(at, i + 1);
    }
  }

  predicate NoncesAscend(txs: seq<Tx>) {
    forall i, j | 0 <= i < j < |txs| && txs[i].from == txs[j].from :: txs[i].nonce <= txs[j].nonce
  }

  /**
   Where the comparator is an order, every sender's nonces end up ascending; but then the sort
   does something only when the whole block is from one sender.
  */
  lemma SortedWhereOrdered(txs: seq<Tx>, out: seq<Tx>)
    requires SortResult(txs, out) && StrictWeakOrder(txs)
    ensures NoncesAscend(out)
    ensures !OneSender(txs) ==> out == txs
  {
    var at :| StablySorted(txs, out, at);
    OrderIff(txs);
    if OneNonceEach(txs) {
      forall i, j | 0 <= i < j < |at| ensures at[i] < at[j] {
        assert !Less(txs[at[i]], txs[at[j]]);
        assert out[i] == txs[at[i]] && out[j] == txs[at[j]];
      }
      forall i: nat | i < |at| ensures out[i] == txs[i] {
        AscendingIsIdentity(at, i);
      }
    }
  }

  /** Elsewhere a list can be in order pair by pair and still run a sender's nonces backwards. */
  lemma PairwiseOrderIsNotEnough(a: Address, b: Address, t: Tx)
    requires a != b
    ensures var txs := [t.(from := a, nonce := 1), t.(from := b, nonce := 0), t.(from := a, nonce := 0)];
            && (forall i | 0 <= i < |txs| - 1 :: !Less(txs[i + 1], txs[i]))
            && !NoncesAscend(txs) && !StrictWeakOrder(txs)
  {
    var txs := [t.(from := a, nonce := 1), t.(from := b, nonce := 0), t.(from := a, nonce := 0)];
    OrderIff(txs);
    assert txs[0].from == txs[2].from && txs[0].nonce > txs[2].nonce;
    assert txs[0].from != txs[1].from;
  }

  // ----- Sorting by insertion ------------------------------------------------------------------------------

  ghost predicate Drawn(txs: seq<Tx>, out: seq<Tx>, at: seq<nat>) {
    |at| == |out| && forall i | 0 <= i < |at| :: at[i] < |txs| && out[i] == txs[at[i]]
  }

  ghost predicate StablyOrdered(out: seq<Tx>, at: seq<nat>) {
    |at| == |out| && forall i, j | 0 <= i < j < |out| :: Less(out[i], out[j]) || (Tied(out[i], out[j]) && at[i] < at[j])
  }

  /** Inserting in front of exactly the larger tail keeps a stable order, on lists the comparator orders. */
  lemma InsertKeepsOrder(front: seq<Tx>, frontAt: seq<nat>, x: Tx, n: nat, k: nat)
    requires StablyOrdered(front, frontAt) && k <= |front|
    requires forall i | 0 <= i < |frontAt| :: frontAt[i] < n
    requires forall i | k <= i < |front| :: Less(x, front[i])
    requires k > 0 ==> !Less(x, front[k - 1])
    requires OneSender(front + [x]) || OneNonceEach(front + [x])
    ensures StablyOrdered(front[..k] + [x] + front[k..], frontAt[..k] + [n] + frontAt[k..])
  {
    forall i | 0 <= i < k ensures Less(front[i], x) || Tied(front[i], x) {
      var all := front + [x];
      assert all[i] == front[i] && all[k - 1] == front[k - 1] && all[|front|] == x;
      assert i < k - 1 ==> Less(front[i], front[k - 1]) || Tied(front[i], front[k - 1]);
    }
    var out, at := front[..k] + [x] + front[k..], frontAt[..k] + [n] + frontAt[k..];
    forall i, j | 0 <= i < j < |out| ensures Less(out[i], out[j]) || (Tied(out[i], out[j]) && at[i] < at[j]) {
      assert i < k ==> out[i] == front[i] && at[i] == frontAt[i];
      assert i > k ==> out[i] == front[i - 1] && at[i] == frontAt[i - 1];
      assert j < k ==> out[j] == front[j] && at[j] == frontAt[j];
      assert j > k ==> out[j] == front[j - 1] && at[j] == frontAt[j - 1];
    }
  }

  lemma InsertIsDrawn(txs: seq<Tx>, front: seq<Tx>, frontAt: seq<nat>, n: nat, k: nat)
    requires n < |txs| && Drawn(txs[..n], front, frontAt) && k <= |front|
    ensures Drawn(txs[..n + 1], front[..k] + [txs[n]] + front[k..], frontAt[..k] + [n] + frontAt[k..])
  {
  }

  lemma InsertIsPermutation(txs: seq<Tx>, front: seq<Tx>, n: nat, k: nat)
    requires n < |txs| && multiset(front) == multiset(txs[..n]) && k <= |front|
    ensures multiset(front[..k] + [txs[n]] + front[k..]) == multiset(txs[..n + 1])
  {
    assert txs[..n + 1] == txs[..n] + [txs[n]] && front == front[..k] + front[k..];
  }

  /** A part of a list the comparator orders is ordered too. */
  lemma DrawnIsOrderly(txs: seq<Tx>, out: seq<Tx>, at: seq<nat>)
    requires Drawn(txs, out, at)
    ensures OneSender(txs) ==> OneSender(out)
    ensures OneNonceEach(txs) ==> OneNonceEach(out)
  {
  }

  predicate Orderly(txs: seq<Tx>) {
    OneSender(txs) || OneNonceEach(txs)
  }

  /** The first `n` transactions are in `out`, drawn from the places `at`. */
  ghost predicate SortedUpTo(txs: seq<Tx>, n: nat, out: seq<Tx>, at: seq<nat>)
    requires n <= |txs|
  {
    && |out| == n && multiset(out) == multiset(txs[..n])
    && Drawn(txs[..n], out, at)
    && (Orderly(txs) ==> StablyOrdered(out, at))
  }

  predicate IsSlot(out: seq<Tx>, x: Tx, k: nat) {
    && k <= |out|
    && (forall i | k <= i < |out| :: Less(x, out[i]))
    && (k > 0 ==> !Less(x, out[k - 1]))
  }

  lemma InsertAtSlot(txs: seq<Tx>, n: nat, out: seq<Tx>, at: seq<nat>, k: nat)
    requires n < |txs| && SortedUpTo(txs, n, out, at) && IsSlot(out, txs[n], k)
    ensures SortedUpTo(txs, n + 1, out[..k] + [txs[n]] + out[k..], at[..k] + [n] + at[k..])
  {
    DrawnIsOrderly(txs, out + [txs[n]], at + [n]);
    if Orderly(txs) {
      InsertKeepsOrder(out, at, txs[n], n, k);
    }
    InsertIsDrawn(txs, out, at, n, k);
    InsertIsPermutation(txs, out, n, k);
  }

  lemma SortedIsResult(txs: seq<Tx>, out: seq<Tx>, at: seq<nat>)
    requires SortedUpTo(txs, |txs|, out, at)
    ensures SortResult(txs, out)
  {
    assert txs[..|txs|] == txs;
    OrderIff(txs);
    assert StrictWeakOrder(txs) ==> StablySorted(txs, out, at);
  }

  /** Scans from the back over the larger transactions. */
  method FindSlot(out: seq<Tx>, x: Tx) returns (k: nat)
    ensures IsSlot(out, x, k)
  {
    k := |out|;
    while k > 0 && Less(x, out[k - 1])
      invariant k <= |out| && forall i | k <= i < |out| :: Less(x, out[i])
    {
      k := k - 1;
    }
  }

  /** `sort_by` as insertion from the back. */
  method SortBy(txs: seq<Tx>) returns (out: seq<Tx>)
    ensures SortResult(txs, out)
  {
    out := [];
    ghost var at: seq<nat> := [];
    for n := 0 to |txs|
      invariant SortedUpTo(txs, n, out, at)
    {
      var k := FindSlot(out, txs[n]);
      InsertAtSlot(txs, n, out, at, k);
      out, at := out[..k] + [txs[n]] + out[k..], at[..k] + [n] + at[k..];
    }
    SortedIsResult(txs, out, at);
  }
}
