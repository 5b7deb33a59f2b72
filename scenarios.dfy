/** Runs of the handlers on a fresh lobby, checking what the coordinator's contracts promise. */
module Scenarios {
  import opened Wrappers
  import opened Roster
  import opened Ledger
  import opened Settlement
  import opened Coordinator

  /** Ranking the ledger of `SealedBidRound`: Y's 15 comes before X's 10. */
  lemma SealedBidRanking(players: seq<Player>)
    requires players == [Player("admin", "Admin"), Player("x", "X"), Player("y", "Y")]
    ensures Rank([Bid("x", 10), Bid("y", 15)], players) == [Offer("y", "Y", 15), Offer("x", "X", 10)]
  {
    FindUnique(players, 1);
    FindUnique(players, 2);
    var s := ToOffers([Bid("x", 10), Bid("y", 15)], players);
    assert s == [Offer("x", "X", 10), Offer("y", "Y", 15)];
    assert SortDesc(s[1..]) == [Offer("y", "Y", 15)];
  }

  /**
   * The admin calls an item for 5 seconds; X bids 10; Y bids 20, then 15.
   * Y's second bid replaces the first, and settlement ranks Y's 15 before X's 10.
   */
  method SealedBidRound() {
    var lobby := new Lobby();
    lobby.Join("admin", Some("Admin"));
    assert lobby.players == [Player("admin", "Admin")];
    lobby.Join("x", Some("X"));
    assert lobby.players == [Player("admin", "Admin"), Player("x", "X")];
    SealedBidLastJoin(lobby);
  }

  /** The last join of `SealedBidRound`, after the admin and X have joined. */
  method SealedBidLastJoin(lobby: Lobby)
    requires lobby.Valid() && lobby.adminId == Some("admin") && lobby.inAuction == None
    requires lobby.players == [Player("admin", "Admin"), Player("x", "X")]
    modifies lobby
  {
    lobby.Join("y", Some("Y"));
    assert lobby.players == [Player("admin", "Admin"), Player("x", "X"), Player("y", "Y")];
    assert lobby.adminId == Some("admin");
    SealedBidBidding(lobby);
  }

  /** The bidding of `SealedBidRound`, from the lobby its joins produced. */
  method SealedBidBidding(lobby: Lobby)
    requires lobby.Valid() && lobby.adminId == Some("admin") && lobby.inAuction == None
    requires lobby.players == [Player("admin", "Admin"), Player("x", "X"), Player("y", "Y")]
    modifies lobby
  {
    var timer := lobby.Call("admin", Some("Player A"), Some(5), 0, 0);
    assert timer == Some(5250);
    lobby.Bid("admin", Some(99));
    lobby.Bid("x", Some(10));
    assert lobby.inAuction.value.bids == [Bid("x", 10)];
    lobby.Bid("y", Some(20));
    assert lobby.inAuction.value.bids == [Bid("x", 10), Bid("y", 20)];
    lobby.Bid("y", Some(15));
    assert lobby.inAuction.value.bids == [Bid("x", 10), Bid("y", 15)];
    SealedBidSettlement(lobby);
  }

  /** The settlement of `SealedBidRound`. */
  method SealedBidSettlement(lobby: Lobby)
    requires lobby.Valid() && lobby.inAuction.Some? && lobby.inAuction.value.playerName == "Player A"
    requires lobby.inAuction.value.bids == [Bid("x", 10), Bid("y", 15)]
    requires lobby.players == [Player("admin", "Admin"), Player("x", "X"), Player("y", "Y")]
    modifies lobby
  {
    SealedBidRanking(lobby.players);
    lobby.Settle();
    assert lobby.events[|lobby.events| - 1] ==
      Emit(Everyone, AuctionEnd("Player A", [Offer("y", "Y", 15), Offer("x", "X", 10)], Some(Offer("y", "Y", 15))));
    assert lobby.inAuction == None;
  }

  /**
   * A bidder can become admin while its bid stays in the ledger: the admin
   * leaves mid-round and the role passes to the first remaining player, who
   * had already bid. A further bid of the new admin is dropped, and the round
   * still settles with the earlier bid.
   */
  method AdminHandOffMidRound() {
    var lobby := new Lobby();
    lobby.Join("admin", None);
    lobby.Join("x", Some("X"));
    var timer := lobby.Call("admin", None, None, 1000, 1000);
    assert timer == Some(10250);
    assert lobby.inAuction.value.playerName == "Giocatore sconosciuto";
    lobby.Bid("x", Some(5));
    lobby.Leave("admin");
    assert lobby.adminId == Some("x");
    assert lobby.inAuction.value.bids == [Bid("x", 5)];
    lobby.Bid("x", Some(7));
    assert lobby.inAuction.value.bids == [Bid("x", 5)];
    var players := lobby.players;
    lobby.Settle();
    FindUnique(players, 0);
    assert lobby.events[|lobby.events| - 1].msg.winner == Some(Offer("x", "X", 5));
  }

  /** A non-admin cannot change the duration, and nothing is broadcast. */
  method NonAdminSettings() {
    var lobby := new Lobby();
    lobby.Join("admin", None);
    assert Placeholder("admin") == "Giocatore-admi" by { assert "admin"[..4] == "admi"; }
    assert lobby.players == [Player("admin", "Giocatore-admi")];
    lobby.Join("x", None);
    var before := lobby.events;
    lobby.SetSettings("x", Some(30));
    assert lobby.settingsDuration == 10 && lobby.events == before;
    lobby.SetSettings("admin", Some(0));
    assert lobby.settingsDuration == 1;
  }
}
