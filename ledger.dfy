/**
 * The bids of the running auction. The server keeps them in a plain object
 * keyed by socket id; an object with string keys enumerates them in the
 * order in which they were first set, and assigning an existing key changes
 * its value without moving it. The ledger is that ordered list of entries.
 */
module Ledger {
  import opened Roster

  datatype Bid = Bid(bidder: SocketId, amount: nat)

  type Ledger = seq<Bid>

  function Bidders(l: Ledger): set<SocketId> {
    if l == [] then {} else {l[0].bidder} + Bidders(l[1..])
  }

  predicate UniqueBidders(l: Ledger) {
    forall i, j :: 0 <= i < j < |l| ==> l[i].bidder != l[j].bidder
  }

  /** The position of the entry of a bidder who is in the ledger. */
  lemma {:induction false} IndexOfBidder(l: Ledger, id: SocketId) returns (k: nat)
    requires id in Bidders(l)
    ensures k < |l| && l[k].bidder == id
  {
    if l[0].bidder == id {
      k := 0;
    } else {
      var k' := IndexOfBidder(l[1..], id);
      k := k' + 1;
    }
  }

  lemma {:induction false} AbsentBidder(l: Ledger, id: SocketId)
    requires forall j :: 0 <= j < |l| ==> l[j].bidder != id
    ensures id !in Bidders(l)
  {
    if l != [] {
      assert l[0].bidder != id;
      forall j | 0 <= j < |l[1..]| ensures l[1..][j].bidder != id {
        assert l[1..][j] == l[j + 1];
      }
      AbsentBidder(l[1..], id);
    }
  }

  /** Every entry's bidder is among the bidders. */
  lemma {:induction false} BidderAt(l: Ledger, k: nat)
    requires k < |l|
    ensures l[k].bidder in Bidders(l)
  {
    if k > 0 {
      BidderAt(l[1..], k - 1);
    }
  }

  /** The dictionary the entries stand for: each bidder's current amount. */
  function AsMap(l: Ledger): (m: map<SocketId, nat>)
    ensures m.Keys == Bidders(l)
  {
    if l == [] then map[]
    else
      AsMap(l[1..])[l[0].bidder := l[0].amount]
  }

  /** `bids[id] = amount`: overwrite the entry of `id` in place, or append a new one. */
  function Put(l: Ledger, id: SocketId, amount: nat): (r: Ledger)
    ensures Bidders(r) == Bidders(l) + {id}
    ensures |r| == if id in Bidders(l) then |l| else |l| + 1
  {
    if l == [] then
      [Bid(id, amount)]
    else
      var r := if l[0].bidder == id then [Bid(id, amount)] + l[1..] else [l[0]] + Put(l[1..], id, amount);
      assert r[1..] == if l[0].bidder == id then l[1..] else Put(l[1..], id, amount);
      r
  }

  lemma MapSwap(m: map<SocketId, nat>, k1: SocketId, v1: nat, k2: SocketId, v2: nat)
    requires k1 != k2
    ensures m[k1 := v1][k2 := v2] == m[k2 := v2][k1 := v1]
  {
  }

  lemma MapOverwrite(m: map<SocketId, nat>, k: SocketId, v1: nat, v2: nat)
    ensures m[k := v1][k := v2] == m[k := v2]
  {
  }

  /** Seen as a dictionary, a bid is the update `bids[id] = amount` and nothing else. */
  lemma {:induction false} PutAsMap(l: Ledger, id: SocketId, amount: nat)
    ensures AsMap(Put(l, id, amount)) == AsMap(l)[id := amount]
  {
    if l == [] {
    } else if l[0].bidder == id {
      var r := Put(l, id, amount);
      assert r[0] == Bid(id, amount) && r[1..] == l[1..];
      MapOverwrite(AsMap(l[1..]), id, l[0].amount, amount);
    } else {
      var r := Put(l, id, amount);
      assert r[0] == l[0] && r[1..] == Put(l[1..], id, amount);
      PutAsMap(l[1..], id, amount);
      MapSwap(AsMap(l[1..]), id, amount, l[0].bidder, l[0].amount);
    }
  }

  lemma UniqueTail(l: Ledger)
    requires UniqueBidders(l) && l != []
    ensures UniqueBidders(l[1..])
    ensures l[0].bidder !in Bidders(l[1..])
  {
    forall i, j | 0 <= i < j < |l[1..]| ensures l[1..][i].bidder != l[1..][j].bidder {
      assert l[1..][i] == l[i + 1] && l[1..][j] == l[j + 1];
    }
    forall j | 0 <= j < |l[1..]| ensures l[1..][j].bidder != l[0].bidder {
      assert l[1..][j] == l[j + 1];
    }
    AbsentBidder(l[1..], l[0].bidder);
  }

  /** A first bid goes to the end of the ledger and leaves the others as they were. */
  lemma {:induction false} PutAppendsNew(l: Ledger, id: SocketId, amount: nat)
    requires id !in Bidders(l)
    ensures Put(l, id, amount) == l + [Bid(id, amount)]
  {
    if l != [] {
      PutAppendsNew(l[1..], id, amount);
      assert l == [l[0]] + l[1..];
    }
  }

  lemma ConsUpdate(x: Bid, t: Ledger, j: nat, y: Bid)
    requires j < |t|
    ensures [x] + t[j := y] == ([x] + t)[j + 1 := y]
  {
  }

  /** A repeated bid replaces the bidder's amount in its original position. */
  lemma {:induction false} PutReplacesInPlace(l: Ledger, k: nat, amount: nat)
    requires UniqueBidders(l) && k < |l|
    ensures Put(l, l[k].bidder, amount) == l[k := Bid(l[k].bidder, amount)]
  {
    if k > 0 {
      var t, id := l[1..], l[k].bidder;
      UniqueTail(l);
      assert t[k - 1] == l[k];
      assert l[0].bidder != id;
      PutReplacesInPlace(t, k - 1, amount);
      assert Put(l, id, amount) == [l[0]] + t[k - 1 := Bid(id, amount)];
      ConsUpdate(l[0], t, k - 1, Bid(id, amount));
      assert [l[0]] + t == l;
    }
  }

  /** Bidding twice leaves only the last amount: the first write is overwritten, not kept. */
  lemma {:induction false} PutTwice(l: Ledger, id: SocketId, a: nat, b: nat)
    ensures Put(Put(l, id, a), id, b) == Put(l, id, b)
  {
    if l != [] && l[0].bidder != id {
      PutTwice(l[1..], id, a, b);
      assert Put(l, id, a)[1..] == Put(l[1..], id, a);
    }
  }

  /** Bidding keeps every bidder at most once in the ledger. */
  lemma {:induction false} PutKeepsUnique(l: Ledger, id: SocketId, amount: nat)
    requires UniqueBidders(l)
    ensures UniqueBidders(Put(l, id, amount))
  {
    if id in Bidders(l) {
      var k := IndexOfBidder(l, id);
      PutReplacesInPlace(l, k, amount);
    } else {
      PutAppendsNew(l, id, amount);
      var r := l + [Bid(id, amount)];
      forall i, j | 0 <= i < j < |r| ensures r[i].bidder != r[j].bidder {
        if j == |l| {
          assert r[i] == l[i];
          BidderAt(l, i);
        }
      }
    }
  }
}
