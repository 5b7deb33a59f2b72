/**
 * The lobby roster: the ordered list of `{id, name}` entries kept by the server,
 * and the pure helpers the handlers apply to it (filtering out a socket,
 * finding a socket, the join-name placeholder and `sanitizePlayer`).
 */
module Roster {
  import opened Wrappers

  /** A socket.io connection id. socket.io never issues an empty id. */
  type SocketId = s: string | s != [] witness "0"

  datatype Player = Player(id: SocketId, name: string)

  /** Name shown when a roster entry has no name, and for bidders who left. */
  const Unknown: string := "sconosciuto"

  /** Prefix of the name given to a player who joins without one. */
  const PlaceholderPrefix: string := "Giocatore-"

  function Ids(s: seq<Player>): set<SocketId> {
    set p | p in s :: p.id
  }

  predicate UniqueIds(s: seq<Player>) {
    forall i, j :: 0 <= i < j < |s| ==> s[i].id != s[j].id
  }

  predicate NamesGiven(s: seq<Player>) {
    forall p :: p in s ==> p.name != ""
  }

  /** The roster without the entries of socket `id`, in the original order (`filter`). */
  function Without(s: seq<Player>, id: SocketId): (r: seq<Player>)
    ensures forall p :: p in r <==> p in s && p.id != id
    ensures |r| <= |s|
    ensures UniqueIds(s) ==> UniqueIds(r)
  {
    if s == [] then []
    else if s[0].id == id then Without(s[1..], id)
    else
      var rest := Without(s[1..], id);
      assert UniqueIds(s) ==> forall p :: p in rest ==> p.id != s[0].id by {
        if UniqueIds(s) {
          forall p | p in rest ensures p.id != s[0].id {
            var j :| 0 <= j < |s[1..]| && s[1..][j] == p;
            assert s[j + 1] == p;
          }
        }
      }
      [s[0]] + rest
  }

  lemma {:induction false} WithoutAbsent(s: seq<Player>, id: SocketId)
    requires id !in Ids(s)
    ensures Without(s, id) == s
  {
    if s != [] {
      assert s[0] in s;
      assert Ids(s[1..]) <= Ids(s) by {
        forall x | x in Ids(s[1..]) ensures x in Ids(s) {
          var p :| p in s[1..] && p.id == x;
          assert p in s;
        }
      }
      WithoutAbsent(s[1..], id);
      assert s == [s[0]] + s[1..];
    }
  }

  lemma UniqueTail(s: seq<Player>)
    requires UniqueIds(s) && s != []
    ensures UniqueIds(s[1..])
    ensures s[0].id !in Ids(s[1..])
  {
    forall i, j | 0 <= i < j < |s[1..]| ensures s[1..][i].id != s[1..][j].id {
      assert s[1..][i] == s[i + 1] && s[1..][j] == s[j + 1];
    }
    forall p | p in s[1..] ensures p.id != s[0].id {
      var j :| 0 <= j < |s[1..]| && s[1..][j] == p;
      assert s[j + 1] == p;
    }
  }

  lemma SplitAround(s: seq<Player>, k: nat)
    requires 0 < k < |s|
    ensures s[..k] + s[k + 1..] == [s[0]] + (s[1..][..k - 1] + s[1..][k..])
  {
    assert s[..k] == [s[0]] + s[1..][..k - 1];
    assert s[k + 1..] == s[1..][k..];
  }

  /** With unique ids, removing the id of entry `k` removes exactly that entry. */
  lemma {:induction false} WithoutRemovesAt(s: seq<Player>, k: nat)
    requires UniqueIds(s) && k < |s|
    ensures Without(s, s[k].id) == s[..k] + s[k + 1..]
  {
    UniqueTail(s);
    if k == 0 {
      WithoutAbsent(s[1..], s[0].id);
    } else {
      var id := s[k].id;
      assert s[1..][k - 1] == s[k];
      assert s[0].id != id;
      WithoutRemovesAt(s[1..], k - 1);
      SplitAround(s, k);
    }
  }

  /**
   * The roster after a (re)join of `id` with `name`: exactly one entry for `id`,
   * in last position, and every other entry where it was.
   */
  lemma JoinedOnce(s: seq<Player>, id: SocketId, name: string)
    requires UniqueIds(s)
    ensures var r := Without(s, id) + [Player(id, name)];
      && UniqueIds(r)
      && r[|r| - 1] == Player(id, name)
      && (forall i :: 0 <= i < |r| - 1 ==> r[i].id != id)
      && Ids(r) == Ids(s) + {id}
  {
    var w := Without(s, id);
    var r := w + [Player(id, name)];
    forall i | 0 <= i < |r| - 1 ensures r[i].id != id {
      assert r[i] == w[i] && w[i] in w;
    }
    assert Ids(r) == Ids(s) + {id} by {
      forall x ensures x in Ids(r) <==> x in Ids(s) + {id} {
        if x in Ids(s) && x != id {
          var p :| p in s && p.id == x;
          assert p in w && p in r;
        }
        if x == id {
          assert r[|r| - 1] in r;
        }
      }
    }
  }

  /** The first entry of socket `id` (`players.find(p => p.id === id)`). */
  function Find(s: seq<Player>, id: SocketId): (r: Option<Player>)
    ensures r.Some? <==> id in Ids(s)
    ensures r.Some? ==> r.value in s && r.value.id == id
  {
    if s == [] then None
    else if s[0].id == id then Some(s[0])
    else
      assert Ids(s) == {s[0].id} + Ids(s[1..]) by {
        forall x ensures x in Ids(s) <==> x in {s[0].id} + Ids(s[1..]) {
          if x in Ids(s) && x != s[0].id {
            var p :| p in s && p.id == x;
            assert p in s[1..] by { var j :| 0 <= j < |s| && s[j] == p; assert j != 0; assert s[1..][j - 1] == p; }
          }
          if x in Ids(s[1..]) {
            var p :| p in s[1..] && p.id == x;
            assert p in s;
          }
        }
      }
      Find(s[1..], id)
  }

  /** With unique ids, `find` returns the one entry that has the id. */
  lemma {:induction false} FindUnique(s: seq<Player>, k: nat)
    requires UniqueIds(s) && k < |s|
    ensures Find(s, s[k].id) == Some(s[k])
  {
    if k > 0 {
      assert s[0].id != s[k].id;
      UniqueTail(s);
      FindUnique(s[1..], k - 1);
    }
  }

  function Min(a: int, b: int): int {
    if a <= b then a else b
  }

  /** `Giocatore-${socket.id.slice(0,4)}` */
  function Placeholder(id: SocketId): (r: string)
    ensures |r| == |PlaceholderPrefix| + Min(4, |id|)
    ensures r[..|PlaceholderPrefix|] == PlaceholderPrefix
    ensures r[|PlaceholderPrefix|..] <= id
  {
    PlaceholderPrefix + id[..Min(4, |id|)]
  }

  /**
   * The name a `lobby:join` records. The payload is `None` when its `name` is
   * missing or falsy, and otherwise `Some` of `String(name)`, which may be empty
   * (as for `name: []`): that string is recorded as it is.
   */
  function JoinName(payload: Option<string>, id: SocketId): (r: string)
    ensures payload.Some? ==> r == payload.value
    ensures payload.None? ==> r == Placeholder(id) && r != ""
  {
    match payload
    case Some(name) => name
    case None => Placeholder(id)
  }

  /** `sanitizePlayer`: keeps the id and replaces an empty name by `sconosciuto`. */
  function SanitizePlayer(p: Player): (r: Player)
    ensures r.id == p.id && r.name != ""
    ensures p.name != "" <==> r == p
  {
    Player(p.id, if p.name != "" then p.name else Unknown)
  }

  /** `players.map(sanitizePlayer)`, the roster as broadcast in `lobby:update`. */
  function Sanitized(s: seq<Player>): (r: seq<Player>)
    ensures |r| == |s|
    ensures forall i :: 0 <= i < |s| ==> r[i] == SanitizePlayer(s[i])
    ensures forall i :: 0 <= i < |s| ==> r[i].id == s[i].id && r[i].name != ""
    ensures NamesGiven(s) <==> r == s
  {
    var r := seq(|s|, i requires 0 <= i < |s| => SanitizePlayer(s[i]));
    assert NamesGiven(s) ==> r == s;
    assert r == s ==> NamesGiven(s) by {
      if r == s {
        forall p | p in s ensures p.name != "" {
          var i :| 0 <= i < |s| && s[i] == p;
          assert r[i] == s[i];
        }
      }
    }
    r
  }
}
