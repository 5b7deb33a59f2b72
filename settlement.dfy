/**
 * Settlement of an auction: the ledger is turned into offers carrying each
 * bidder's roster name, the offers are ranked by amount, highest first, with a
 * stable sort (equal amounts keep ledger order), and the first offer wins.
 */
module Settlement {
  import opened Wrappers
  import opened Roster
  import opened Ledger

  datatype Offer = Offer(socketId: SocketId, name: string, amount: nat)

  /** The name shown for a bidder: the roster name, or `sconosciuto` once the bidder has left. */
  function NameOf(players: seq<Player>, id: SocketId): (r: string)
    ensures id !in Ids(players) ==> r == Unknown
    ensures id in Ids(players) ==> Player(id, r) in players
    ensures UniqueIds(players) ==> forall p :: p in players && p.id == id ==> r == p.name
  {
    match Find(players, id)
    case Some(p) =>
      assert UniqueIds(players) ==> forall q :: q in players && q.id == id ==> q == p by {
        if UniqueIds(players) {
          forall q | q in players && q.id == id ensures q == p {
            var k :| 0 <= k < |players| && players[k] == q;
            FindUnique(players, k);
          }
        }
      }
      p.name
    case None => Unknown
  }

  /** `Object.entries(bids).map(...)`: one offer per ledger entry, in ledger order. */
  function ToOffers(l: Ledger, players: seq<Player>): (r: seq<Offer>)
    ensures |r| == |l|
    ensures forall i :: 0 <= i < |l| ==>
      r[i].socketId == l[i].bidder && r[i].amount == l[i].amount && r[i].name == NameOf(players, l[i].bidder)
  {
    seq(|l|, i requires 0 <= i < |l| => Offer(l[i].bidder, NameOf(players, l[i].bidder), l[i].amount))
  }

  predicate NonIncreasing(s: seq<Offer>) {
    forall i, j :: 0 <= i < j < |s| ==> s[i].amount >= s[j].amount
  }

  /** The offers of amount `v`, in the order in which they appear in `s`. */
  function WithAmount(s: seq<Offer>, v: nat): seq<Offer> {
    if s == [] then []
    else (if s[0].amount == v then [s[0]] else []) + WithAmount(s[1..], v)
  }

  lemma WithAmountCons(x: Offer, s: seq<Offer>, v: nat)
    ensures WithAmount([x] + s, v) == (if x.amount == v then [x] else []) + WithAmount(s, v)
  {
    assert ([x] + s)[1..] == s;
  }

  /** An offer no smaller than every offer of a non-increasing list can go in front of it. */
  lemma PrependKeepsOrder(h: Offer, t: seq<Offer>)
    requires NonIncreasing(t)
    requires forall o :: o in multiset(t) ==> o.amount <= h.amount
    ensures NonIncreasing([h] + t)
  {
    var r := [h] + t;
    forall j | 0 < j < |r| ensures r[0].amount >= r[j].amount {
      assert r[j] == t[j - 1] && t[j - 1] in multiset(t);
    }
  }

  /** Every offer of a non-increasing list is at most its head. */
  lemma HeadBoundsTail(s: seq<Offer>)
    requires NonIncreasing(s) && s != []
    ensures forall o :: o in multiset(s[1..]) ==> o.amount <= s[0].amount
  {
    forall o | o in multiset(s[1..]) ensures o.amount <= s[0].amount {
      var k :| 0 <= k < |s[1..]| && s[1..][k] == o;
      assert s[k + 1] == o;
    }
  }

  /**
   * Inserts `x` in front of the first offer whose amount does not exceed its own:
   * `x` precedes the offers it ties with, as an earlier entry does in a stable sort.
   */
  function Insert(x: Offer, s: seq<Offer>): (r: seq<Offer>)
    ensures multiset(r) == multiset(s) + multiset{x}
  {
    if s == [] || s[0].amount <= x.amount then
      [x] + s
    else
      assert s == [s[0]] + s[1..];
      [s[0]] + Insert(x, s[1..])
  }

  /** Inserting into a non-increasing list keeps it non-increasing. */
  lemma {:induction false} InsertOrdered(x: Offer, s: seq<Offer>)
    requires NonIncreasing(s)
    ensures NonIncreasing(Insert(x, s))
  {
    if s == [] {
    } else if s[0].amount <= x.amount {
      HeadBoundsTail(s);
      assert s == [s[0]] + s[1..];
      PrependKeepsOrder(x, s);
    } else {
      assert NonIncreasing(s[1..]);
      InsertOrdered(x, s[1..]);
      HeadBoundsTail(s);
      PrependKeepsOrder(s[0], Insert(x, s[1..]));
    }
  }

  /** Two offers of different amounts commute under `WithAmount`: at most one of them is kept. */
  lemma SwapDistinct(a: Offer, x: Offer, rest: seq<Offer>, v: nat)
    requires a.amount != x.amount
    ensures WithAmount([a] + ([x] + rest), v) == WithAmount([x] + ([a] + rest), v)
  {
    WithAmountCons(a, [x] + rest, v);
    WithAmountCons(x, rest, v);
    WithAmountCons(x, [a] + rest, v);
    WithAmountCons(a, rest, v);
  }

  /** Insertion keeps, for every amount, the order of the offers of that amount, with `x` first. */
  lemma {:induction false} InsertStable(x: Offer, s: seq<Offer>, v: nat)
    ensures WithAmount(Insert(x, s), v) == WithAmount([x] + s, v)
  {
    if s != [] && s[0].amount > x.amount {
      var a, rest := s[0], s[1..];
      var ir := Insert(x, rest);
      assert Insert(x, s) == [a] + ir;
      assert s == [a] + rest;
      calc {
        WithAmount([a] + ir, v);
        { WithAmountCons(a, ir, v); InsertStable(x, rest, v); WithAmountCons(a, [x] + rest, v); }
        WithAmount([a] + ([x] + rest), v);
        { SwapDistinct(a, x, rest, v); }
        WithAmount([x] + ([a] + rest), v);
      }
    }
  }

  /**
   * `offers.sort((a, b) => b.amount - a.amount)`: a stable sort on amount, highest first.
   * The result is a permutation of the input, is non-increasing in amount, and for
   * every amount lists the offers of that amount in their original order.
   */
  function SortDesc(s: seq<Offer>): (r: seq<Offer>)
    ensures multiset(r) == multiset(s) && |r| == |s|
    ensures NonIncreasing(r)
    ensures forall v :: WithAmount(r, v) == WithAmount(s, v)
  {
    if s == [] then []
    else
      var r := Insert(s[0], SortDesc(s[1..]));
      InsertOrdered(s[0], SortDesc(s[1..]));
      assert s == [s[0]] + s[1..];
      forall v ensures WithAmount(r, v) == WithAmount(s, v) {
        InsertStable(s[0], SortDesc(s[1..]), v);
        WithAmountCons(s[0], SortDesc(s[1..]), v);
        WithAmountCons(s[0], s[1..], v);
      }
      assert |r| == |multiset(r)|;
      r
  }

  /**
   * The ranked offers of an auction whose ledger is `l`: every entry becomes one
   * offer, highest amount first, and entries of equal amount stay in ledger order.
   */
  function Rank(l: Ledger, players: seq<Player>): (r: seq<Offer>)
    ensures |r| == |l| && multiset(r) == multiset(ToOffers(l, players))
    ensures NonIncreasing(r)
    ensures forall v :: WithAmount(r, v) == WithAmount(ToOffers(l, players), v)
  {
    SortDesc(ToOffers(l, players))
  }

  /** `offers.length ? offers[0] : null` */
  function Winner(offers: seq<Offer>): (r: Option<Offer>)
    ensures r.None? <==> offers == []
    ensures r.Some? ==> r.value in offers
    ensures r.Some? && NonIncreasing(offers) ==> forall o :: o in offers ==> o.amount <= r.value.amount
  {
    if offers == [] then None else Some(offers[0])
  }

  /** The first offer of amount `v` in `s` is the first offer of `WithAmount(s, v)`. */
  lemma {:induction false} FirstWithAmount(s: seq<Offer>, v: nat) returns (k: nat)
    requires WithAmount(s, v) != []
    ensures k < |s| && s[k] == WithAmount(s, v)[0] && s[k].amount == v
    ensures forall j :: 0 <= j < k ==> s[j].amount != v
  {
    if s[0].amount == v {
      k := 0;
    } else {
      var k' := FirstWithAmount(s[1..], v);
      k := k' + 1;
      assert s[k] == s[1..][k'];
      forall j | 0 <= j < k ensures s[j].amount != v {
        if j > 0 {
          assert s[j] == s[1..][j - 1];
        }
      }
    }
  }

  /**
   * The head of the ranking is the highest offer, and among the highest offers
   * it is the one that comes first in `s`.
   */
  lemma HeadIsFirstHighest(s: seq<Offer>) returns (k: nat)
    requires s != []
    ensures k < |s| && SortDesc(s)[0] == s[k]
    ensures forall j :: 0 <= j < |s| ==> s[j].amount <= s[k].amount
    ensures forall j :: 0 <= j < k ==> s[j].amount < s[k].amount
  {
    var r := SortDesc(s);
    var m := r[0].amount;
    forall j | 0 <= j < |s| ensures s[j].amount <= m {
      assert s[j] in multiset(r);
      var i :| 0 <= i < |r| && r[i] == s[j];
    }
    assert r == [r[0]] + r[1..];
    WithAmountCons(r[0], r[1..], m);
    k := FirstWithAmount(s, m);
  }

  /** Entry `k` holds the highest amount of the ledger, and no earlier entry holds as much. */
  predicate EarliestHighest(l: Ledger, k: nat) {
    && k < |l|
    && (forall j :: 0 <= j < |l| ==> l[j].amount <= l[k].amount)
    && (forall j :: 0 <= j < k ==> l[j].amount < l[k].amount)
  }

  /**
   * Settlement names no winner exactly when nobody bid; otherwise the winner is
   * the entry with the highest amount, and on a tie the one first placed in the
   * ledger (the bidder whose first accepted bid came earliest).
   */
  lemma WinnerIsEarliestHighestBid(l: Ledger, players: seq<Player>)
    ensures Winner(Rank(l, players)).None? <==> l == []
    ensures l != [] ==>
      exists k: nat :: (EarliestHighest(l, k) &&
        Winner(Rank(l, players)) == Some(Offer(l[k].bidder, NameOf(players, l[k].bidder), l[k].amount)))
  {
    var s := ToOffers(l, players);
    if l != [] {
      var k := HeadIsFirstHighest(s);
      assert forall j :: 0 <= j < |l| ==> l[j].amount == s[j].amount;
      assert EarliestHighest(l, k);
    }
  }
}
