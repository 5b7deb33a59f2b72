/**
 * The server's single in-memory lobby and its socket handlers. Every handler
 * is a guarded update of the lobby record; a message that fails a guard is
 * dropped without any reply. Broadcasts are recorded, in order, in `events`.
 */
module Coordinator {
  import opened Wrappers
  import opened Roster
  import opened Ledger
  import opened Settlement

  /** Round duration, in seconds, before any `settings:set`. */
  const DefaultDuration: int := 10

  /** Milliseconds the settlement timer waits past the deadline. */
  const GraceMs: int := 250

  /** Name of the auctioned item when `auction:call` carries none. */
  const UnknownItem: string := "Giocatore sconosciuto"

  datatype Auction = Auction(playerName: string, callerId: SocketId, duration: int, endsAt: int, bids: Ledger)

  /** `io.emit` reaches every socket, `socket.emit` only the sender. */
  datatype Target = Everyone | Only(socket: SocketId)

  datatype Message =
    | LobbyUpdate(roster: seq<Player>)
    | SettingsUpdate(duration: int)
    | AuctionStart(playerName: string, duration: int, endsAt: int)
    | BidAck(amount: nat)
    | BidMark(socketId: SocketId)
    | AuctionEnd(playerName: string, offers: seq<Offer>, winner: Option<Offer>)

  datatype Emit = Emit(to: Target, msg: Message)

  /** `Math.max(1, v)` */
  function AtLeastOne(v: int): (r: int)
    ensures r >= 1 && r >= v
    ensures r == v || r == 1
  {
    if v < 1 then 1 else v
  }

  /** The default duration after `settings:set` from the admin: the clamped value if numeric. */
  function SetDuration(current: int, payload: Option<int>): (r: int)
    ensures payload.None? ==> r == current
    ensures payload.Some? ==> r >= 1 && r >= payload.value && (r == payload.value || r == 1)
    ensures current >= 1 ==> r >= 1
  {
    match payload
    case Some(v) => AtLeastOne(v)
    case None => current
  }

  /** The duration of a called auction: the clamped override if numeric, else the default (`|| 10`). */
  function CallDuration(payload: Option<int>, setting: int): (r: int)
    ensures payload.Some? ==> r == AtLeastOne(payload.value)
    ensures payload.None? && setting != 0 ==> r == setting
    ensures setting >= 1 ==> r >= 1
  {
    match payload
    case Some(v) => AtLeastOne(v)
    case None => if setting != 0 then setting else DefaultDuration
  }

  /**
   * The item label of `auction:call`. The payload is `None` when `playerName` is
   * missing or falsy, and otherwise `Some` of `String(playerName)`, kept as it is.
   */
  function ItemLabel(payload: Option<string>): (r: string)
    ensures payload.Some? ==> r == payload.value
    ensures payload.None? ==> r == UnknownItem
  {
    match payload
    case Some(name) => name
    case None => UnknownItem
  }

  /**
   * The delay requested from `setTimeout` when the timer is scheduled at `t` for a
   * deadline `endsAt`: `Math.max(0, endsAt - t) + 250`. It always covers the
   * deadline plus the grace period.
   */
  function TimerDelay(endsAt: int, t: int): (r: int)
    ensures r >= GraceMs
    ensures t + r >= endsAt + GraceMs
    ensures endsAt >= t ==> t + r == endsAt + GraceMs
  {
    (if endsAt - t > 0 then endsAt - t else 0) + GraceMs
  }

  /** The largest delay, in milliseconds, that Node's `setTimeout` honours. */
  const MaxTimerDelay: int := 2147483647

  /**
   * The delay Node's `setTimeout` actually waits for a requested delay `d`: a
   * delay below 1 ms or above `MaxTimerDelay` is replaced by 1 ms.
   */
  function EffectiveDelay(d: int): (r: int)
    ensures 1 <= r <= MaxTimerDelay
    ensures 1 <= d <= MaxTimerDelay ==> r == d
    ensures d < 1 || d > MaxTimerDelay ==> r == 1
  {
    if d < 1 || d > MaxTimerDelay then 1 else d
  }

  /**
   * While the requested delay fits `setTimeout`, the settlement timer fires no
   * earlier than the deadline plus the grace period.
   */
  lemma SettlesAfterDeadline(endsAt: int, t: int)
    requires TimerDelay(endsAt, t) <= MaxTimerDelay
    ensures t + EffectiveDelay(TimerDelay(endsAt, t)) >= endsAt + GraceMs
  {
  }

  /**
   * An auction called with a duration above 2147483 s, scheduled at the instant
   * of the call, is settled 1 ms later, long before the `endsAt` announced in
   * `auction:start`.
   */
  lemma HugeDurationSettlesEarly(now: int, d: int)
    requires d * 1000 + GraceMs > MaxTimerDelay
    ensures EffectiveDelay(TimerDelay(now + d * 1000, now)) == 1
    ensures now + 1 < now + d * 1000
  {
  }

  /** The admin after a `lobby:join` from `sid`: the sender takes the role only when nobody holds it. */
  function AdminAfterJoin(admin: Option<SocketId>, sid: SocketId): (r: Option<SocketId>)
    ensures r.Some?
    ensures admin.None? ==> r == Some(sid)
    ensures admin.Some? ==> r == admin
  {
    if admin.None? then Some(sid) else admin
  }

  /**
   * The admin after `sid` leaves or disconnects, `remaining` being the roster
   * without it: a departing admin hands the role to the first remaining entry.
   */
  function AdminAfterDeparture(admin: Option<SocketId>, sid: SocketId, remaining: seq<Player>): (r: Option<SocketId>)
    ensures admin != Some(sid) ==> r == admin
    ensures admin == Some(sid) && remaining == [] ==> r == None
    ensures admin == Some(sid) && remaining != [] ==> r == Some(remaining[0].id)
  {
    if admin == Some(sid) then (if remaining != [] then Some(remaining[0].id) else None) else admin
  }

  /** The admin is on the roster, and there is an admin exactly when the roster is not empty. */
  predicate AdminOnRoster(admin: Option<SocketId>, players: seq<Player>) {
    && (admin.Some? ==> admin.value in Ids(players))
    && (admin.None? <==> players == [])
  }

  lemma JoinKeepsAdminOnRoster(admin: Option<SocketId>, players: seq<Player>, sid: SocketId, name: string)
    requires UniqueIds(players) && AdminOnRoster(admin, players)
    ensures AdminOnRoster(AdminAfterJoin(admin, sid), Without(players, sid) + [Player(sid, name)])
  {
    JoinedOnce(players, sid, name);
  }

  lemma DepartureKeepsAdminOnRoster(admin: Option<SocketId>, players: seq<Player>, sid: SocketId)
    requires AdminOnRoster(admin, players)
    ensures var remaining := Without(players, sid);
      AdminOnRoster(AdminAfterDeparture(admin, sid, remaining), remaining)
  {
    var remaining := Without(players, sid);
    if admin.Some? && admin.value != sid {
      var p :| p in players && p.id == admin.value;
      assert p in remaining;
    }
    if remaining != [] {
      assert remaining[0] in remaining;
    }
  }

  /**
   * The `auction:end` broadcast for auction `a` settled against roster `players`:
   * the item, the ranked offers, and as winner the earliest highest bid, or none
   * when nobody bid.
   */
  function Outcome(a: Auction, players: seq<Player>): (r: Message)
    ensures r.AuctionEnd? && r.playerName == a.playerName && r.offers == Rank(a.bids, players)
    ensures r.winner.None? <==> a.bids == []
    ensures a.bids != [] ==>
      exists k: nat :: (EarliestHighest(a.bids, k) &&
        r.winner == Some(Offer(a.bids[k].bidder, NameOf(players, a.bids[k].bidder), a.bids[k].amount)))
  {
    WinnerIsEarliestHighestBid(a.bids, players);
    var offers := Rank(a.bids, players);
    AuctionEnd(a.playerName, offers, Winner(offers))
  }


  class Lobby {
    var players: seq<Player>
    var adminId: Option<SocketId>
    var settingsDuration: int
    var inAuction: Option<Auction>
    /** Every broadcast and private message sent so far, oldest first. */
    var events: seq<Emit>

    /**
     * The roster holds each socket at most once; the
     * admin is on the roster, and there is one exactly when somebody is in the
     * lobby; the default duration is at
     * least one second; the running auction's ledger holds each bidder once.
     */
    ghost predicate Valid()
      reads this
    {
      && UniqueIds(players)
      && AdminOnRoster(adminId, players)
      && settingsDuration >= 1
      && (inAuction.Some? ==> UniqueBidders(inAuction.value.bids) && inAuction.value.duration >= 1)
    }

    constructor ()
      ensures Valid()
      ensures players == [] && adminId == None && settingsDuration == DefaultDuration
      ensures inAuction == None && events == []
    {
      players := [];
      adminId := None;
      settingsDuration := DefaultDuration;
      inAuction := None;
      events := [];
    }

    /** On connection the new socket alone receives the settings and the roster. */
    method Connect(sid: SocketId)
      requires Valid()
      modifies this
      ensures Valid()
      ensures players == old(players) && adminId == old(adminId)
      ensures settingsDuration == old(settingsDuration) && inAuction == old(inAuction)
      ensures events == old(events) + [Emit(Only(sid), SettingsUpdate(settingsDuration)), Emit(Only(sid), LobbyUpdate(Sanitized(players)))]
    {
      events := events + [Emit(Only(sid), SettingsUpdate(settingsDuration)), Emit(Only(sid), LobbyUpdate(Sanitized(players)))];
    }

    /**
     * `lobby:join`: any earlier entry of the sender is dropped and a fresh one is
     * appended; the sender becomes admin only when there is none.
     */
    method Join(sid: SocketId, name: Option<string>)
      requires Valid()
      modifies this
      ensures Valid()
      ensures players == Without(old(players), sid) + [Player(sid, JoinName(name, sid))]
      ensures adminId == AdminAfterJoin(old(adminId), sid)
      ensures settingsDuration == old(settingsDuration) && inAuction == old(inAuction)
      ensures events == old(events) + [Emit(Everyone, LobbyUpdate(Sanitized(players))), Emit(Everyone, SettingsUpdate(settingsDuration))]
    {
      var entry := Player(sid, JoinName(name, sid));
      JoinedOnce(players, sid, entry.name);
      JoinKeepsAdminOnRoster(adminId, players, sid, entry.name);
      players := Without(players, sid) + [entry];
      if adminId.None? {
        adminId := Some(sid);
      }
      events := events + [Emit(Everyone, LobbyUpdate(Sanitized(players))), Emit(Everyone, SettingsUpdate(settingsDuration))];
    }

    /** The body shared by `lobby:leave` and `disconnect`. */
    method Depart(sid: SocketId)
      requires Valid()
      modifies this
      ensures Valid()
      ensures players == Without(old(players), sid)
      ensures adminId == AdminAfterDeparture(old(adminId), sid, players)
      ensures settingsDuration == old(settingsDuration) && inAuction == old(inAuction)
      ensures events == old(events) + [Emit(Everyone, LobbyUpdate(Sanitized(players))), Emit(Everyone, SettingsUpdate(settingsDuration))]
    {
      DepartureKeepsAdminOnRoster(adminId, players, sid);
      players := Without(players, sid);
      if adminId == Some(sid) {
        adminId := if players != [] then Some(players[0].id) else None;
      }
      events := events + [Emit(Everyone, LobbyUpdate(Sanitized(players))), Emit(Everyone, SettingsUpdate(settingsDuration))];
    }

    /** `lobby:leave`: the sender's entry goes; an admin sender hands the role to the first entry left. */
    method Leave(sid: SocketId)
      requires Valid()
      modifies this
      ensures Valid()
      ensures players == Without(old(players), sid)
      ensures adminId == AdminAfterDeparture(old(adminId), sid, players)
      ensures settingsDuration == old(settingsDuration) && inAuction == old(inAuction)
      ensures events == old(events) + [Emit(Everyone, LobbyUpdate(Sanitized(players))), Emit(Everyone, SettingsUpdate(settingsDuration))]
    {
      Depart(sid);
    }

    /** `disconnect`: the same update as `lobby:leave`. */
    method Disconnect(sid: SocketId)
      requires Valid()
      modifies this
      ensures Valid()
      ensures players == Without(old(players), sid)
      ensures adminId == AdminAfterDeparture(old(adminId), sid, players)
      ensures settingsDuration == old(settingsDuration) && inAuction == old(inAuction)
      ensures events == old(events) + [Emit(Everyone, LobbyUpdate(Sanitized(players))), Emit(Everyone, SettingsUpdate(settingsDuration))]
    {
      Depart(sid);
    }

    /** `settings:set`: only the admin may change the default duration. */
    method SetSettings(sid: SocketId, duration: Option<int>)
      requires Valid()
      modifies this
      ensures Valid()
      ensures old(adminId) != Some(sid) ==> unchanged(this)
      ensures old(adminId) == Some(sid) ==>
        && settingsDuration == SetDuration(old(settingsDuration), duration)
        && players == old(players) && adminId == old(adminId) && inAuction == old(inAuction)
        && events == old(events) + [Emit(Everyone, SettingsUpdate(settingsDuration))]
    {
      if adminId != Some(sid) {
        return;
      }
      settingsDuration := SetDuration(settingsDuration, duration);
      events := events + [Emit(Everyone, SettingsUpdate(settingsDuration))];
    }

    /**
     * `auction:call` at time `now` (milliseconds): only the admin, and only while
     * no auction runs, opens an auction with an empty ledger and a deadline
     * `duration` seconds ahead. Returns the delay after which Node runs the
     * settlement timer scheduled at time `timerNow`, or `None` when the call is dropped.
     */
    method Call(sid: SocketId, playerName: Option<string>, duration: Option<int>, now: int, timerNow: int)
      returns (timer: Option<int>)
      requires Valid()
      modifies this
      ensures Valid()
      ensures old(adminId) != Some(sid) || old(inAuction).Some? ==> unchanged(this) && timer == None
      ensures old(adminId) == Some(sid) && old(inAuction).None? ==>
        var d := CallDuration(duration, old(settingsDuration));
        && d >= 1
        && inAuction == Some(Auction(ItemLabel(playerName), sid, d, now + d * 1000, []))
        && players == old(players) && adminId == old(adminId) && settingsDuration == old(settingsDuration)
        && events == old(events) + [Emit(Everyone, AuctionStart(ItemLabel(playerName), d, now + d * 1000))]
        && timer == Some(EffectiveDelay(TimerDelay(now + d * 1000, timerNow)))
    {
      if adminId != Some(sid) {
        return None;
      }
      if inAuction.Some? {
        return None;
      }
      var item := ItemLabel(playerName);
      var d := CallDuration(duration, settingsDuration);
      var endsAt := now + d * 1000;
      inAuction := Some(Auction(item, sid, d, endsAt, []));
      events := events + [Emit(Everyone, AuctionStart(item, d, endsAt))];
      timer := Some(EffectiveDelay(TimerDelay(endsAt, timerNow)));
    }

    /**
     * `auction:bid`: accepted only while an auction runs, from a sender who is not
     * the admin, with a numeric amount of at least zero. The sender's entry takes
     * the new amount; the sender alone learns the amount, everyone else only that
     * the sender bid.
     */
    method Bid(sid: SocketId, amount: Option<int>)
      requires Valid()
      modifies this
      ensures Valid()
      ensures old(inAuction).None? || old(adminId) == Some(sid) || amount.None? || amount.value < 0 ==> unchanged(this)
      ensures old(inAuction).Some? && old(adminId) != Some(sid) && amount.Some? && amount.value >= 0 ==>
        && inAuction == Some(old(inAuction).value.(bids := Put(old(inAuction).value.bids, sid, amount.value)))
        && players == old(players) && adminId == old(adminId) && settingsDuration == old(settingsDuration)
        && events == old(events) + [Emit(Only(sid), BidAck(amount.value)), Emit(Everyone, BidMark(sid))]
    {
      if inAuction.None? {
        return;
      }
      if adminId == Some(sid) {
        return;
      }
      if amount.None? || amount.value < 0 {
        return;
      }
      var a := inAuction.value;
      PutKeepsUnique(a.bids, sid, amount.value);
      inAuction := Some(a.(bids := Put(a.bids, sid, amount.value)));
      events := events + [Emit(Only(sid), BidAck(amount.value)), Emit(Everyone, BidMark(sid))];
    }

    /**
     * The settlement timer: nothing when no auction runs; otherwise the ranked
     * offers and the winner are broadcast and the auction is cleared.
     */
    method Settle()
      requires Valid()
      modifies this
      ensures Valid()
      ensures old(inAuction).None? ==> unchanged(this)
      ensures old(inAuction).Some? ==>
        && inAuction == None
        && players == old(players) && adminId == old(adminId) && settingsDuration == old(settingsDuration)
        && events == old(events) + [Emit(Everyone, Outcome(old(inAuction).value, players))]
    {
      if inAuction.None? {
        return;
      }
      var a := inAuction.value;
      var offers := Rank(a.bids, players);
      events := events + [Emit(Everyone, AuctionEnd(a.playerName, offers, Winner(offers)))];
      inAuction := None;
    }
  }
}
