/**
 Channel membership rows, and the counting query that finds the direct-message channel of a set of users.
 */
module Channels {
  import opened Sets

  datatype Member = Member(channelId: string, userId: string, joinedAt: int)

  /** channel_member rows by row id. The schema declares no uniqueness over (channel, user). */
  type Table = map<string, Member>

  ghost predicate OneRowEach(t: Table) {
    forall i, j :: i in t && j in t && i != j ==> t[i].channelId != t[j].channelId || t[i].userId != t[j].userId
  }

  function RowsOf(t: Table, channel: string): set<string> {
    set i | i in t && t[i].channelId == channel
  }

  function Members(t: Table, channel: string): set<string> {
    set i | i in t && t[i].channelId == channel :: t[i].userId
  }

  /** GROUP BY channel HAVING count = n AND sum(user in users) = n; a channel without rows has no group. */
  predicate DmMatches(t: Table, channel: string, users: set<string>) {
    var rows := RowsOf(t, channel);
    && rows != {}
    && |rows| == |users|
    && |set i | i in rows && t[i].userId in users| == |users|
  }

  /** With one row per user, a channel has as many rows as members. */
  lemma {:induction false} RowsCountMembers(t: Table, rows: set<string>, members: set<string>)
    requires forall i :: i in rows ==> i in t
    requires forall i, j :: i in rows && j in rows && t[i].userId == t[j].userId ==> i == j
    requires members == set i | i in rows :: t[i].userId
    ensures |rows| == |members|
    decreases rows
  {
    if rows == {} {
      assert members == {};
    } else {
      var x :| x in rows;
      var rest := rows - {x};
      var others := set i | i in rest :: t[i].userId;
      assert members == others + {t[x].userId};
      RowsCountMembers(t, rest, others);
    }
  }

  /** The two counting conditions hold exactly for the channels whose members are the requested users. */
  lemma DmMatchesIff(t: Table, channel: string, users: set<string>)
    requires OneRowEach(t)
    ensures DmMatches(t, channel, users) <==> users != {} && Members(t, channel) == users
  {
    var rows := RowsOf(t, channel);
    var matching := set i | i in rows && t[i].userId in users;
    assert Members(t, channel) == set i | i in rows :: t[i].userId;
    RowsCountMembers(t, rows, Members(t, channel));
    SubsetSize(matching, rows);
    if DmMatches(t, channel, users) {
      assert matching == rows;
      forall u | u in Members(t, channel)
        ensures u in users
      {
        var i :| i in t && t[i].channelId == channel && t[i].userId == u;
        assert i in matching;
      }
      SubsetSize(Members(t, channel), users);
    }
    if Members(t, channel) == users {
      forall i | i in rows
        ensures i in matching
      {
        assert t[i].userId in Members(t, channel);
      }
      assert matching == rows;
    }
  }

  /** Two rows for one user, were they possible, would pass for two users. */
  lemma DuplicateRowFoolsLookup(t: Table)
    requires t == map["r1" := Member("c", "u", 0), "r2" := Member("c", "u", 0)]
    ensures DmMatches(t, "c", {"u", "v"}) && Members(t, "c") != {"u", "v"}
  {
    var rows, users := RowsOf(t, "c"), {"u", "v"};
    assert rows == {"r1", "r2"} && |rows| == 2 && |users| == 2;
    assert (set i | i in rows && t[i].userId in users) == rows;
    assert "v" in users && "v" !in Members(t, "c");
  }

  /** Ids minted for new rows: one per user, all different and unused. */
  ghost predicate Minted(t: Table, users: set<string>, ids: map<string, string>) {
    && users <= ids.Keys
    && (forall u :: u in users ==> ids[u] !in t)
    && (forall u, v :: u in users && v in users && u != v ==> ids[u] != ids[v])
  }

  /** The table with one new row per user. */
  ghost predicate Added(t: Table, t': Table, channel: string, users: set<string>, ids: map<string, string>, now: int)
    requires users <= ids.Keys
  {
    && (forall i :: i in t' <==> i in t || exists u :: u in users && ids[u] == i)
    && (forall i :: i in t ==> t'[i] == t[i])
    && (forall u :: u in users ==> ids[u] in t' && t'[ids[u]] == Member(channel, u, now))
  }

  lemma AddedMeans(t: Table, t': Table, channel: string, users: set<string>, ids: map<string, string>, now: int)
    requires OneRowEach(t) && Minted(t, users, ids) && Added(t, t', channel, users, ids, now)
    requires users !! Members(t, channel)
    ensures OneRowEach(t')
    ensures Members(t', channel) == Members(t, channel) + users
    ensures forall c :: c != channel ==> Members(t', c) == Members(t, c)
  {
    forall i, j | i in t' && j in t' && i != j
      ensures t'[i].channelId != t'[j].channelId || t'[i].userId != t'[j].userId
    {
      if i in t && j !in t && t[i].channelId == channel { assert t[i].userId in Members(t, channel); }
      if j in t && i !in t && t[j].channelId == channel { assert t[j].userId in Members(t, channel); }
    }
    forall c, u
      ensures u in Members(t', c) <==> u in Members(t, c) || (c == channel && u in users)
    {
      if u in Members(t', c) {
        var i :| i in t' && t'[i].channelId == c && t'[i].userId == u;
      }
      if c == channel && u in users {
        assert t'[ids[u]].userId == u;
      }
      if u in Members(t, c) {
        var i :| i in t && t[i].channelId == c && t[i].userId == u;
        assert t'[i] == t[i];
      }
    }
  }

  function RowsFor(t: Table, channel: string, users: set<string>): set<string> {
    set i | i in t && t[i].channelId == channel && t[i].userId in users
  }

  lemma RemovedMeans(t: Table, channel: string, users: set<string>)
    requires OneRowEach(t)
    ensures var t' := t - RowsFor(t, channel, users);
            && OneRowEach(t')
            && Members(t', channel) == Members(t, channel) - users
            && forall c :: c != channel ==> Members(t', c) == Members(t, c)
  {
    var t' := t - RowsFor(t, channel, users);
    forall c
      ensures Members(t', c) == if c == channel then Members(t, c) - users else Members(t, c)
    {
      forall u | u in Members(t, c) && !(c == channel && u in users)
        ensures u in Members(t', c)
      {
        var i :| i in t && t[i].channelId == c && t[i].userId == u;
        assert i in t';
      }
    }
  }

  // ---------- runs ----------

  /** Creating a channel, inviting and joining all make sure that users are members. */
  datatype Step =
    | Grow(channel: string, users: set<string>, ids: map<string, string>, now: int)
    | Shrink(channel: string, users: set<string>)

  ghost predicate Next(t: Table, t': Table, step: Step) {
    match step
    case Grow(channel, users, ids, now) =>
      var newcomers := users - Members(t, channel);
      Minted(t, newcomers, ids) && Added(t, t', channel, newcomers, ids, now)
    case Shrink(channel, users) => t' == t - RowsFor(t, channel, users)
  }

  /** The tables from the empty one through every step of a run. */
  ghost predicate IsRun(tables: seq<Table>, steps: seq<Step>) {
    && |tables| == |steps| + 1 && tables[0] == map[]
    && forall i :: 0 <= i < |steps| ==> Next(tables[i], tables[i + 1], steps[i])
  }

  /** Who is in a channel after the steps, going by the requests alone. */
  function MembersAfter(steps: seq<Step>, channel: string): set<string> {
    if steps == [] then {}
    else
      var before, last := MembersAfter(steps[..|steps| - 1], channel), steps[|steps| - 1];
      if last.channel != channel then before
      else if last.Grow? then before + last.users
      else before - last.users
  }

  /** Any run keeps one row per user and channel, and the rows say exactly what the requests asked for. */
  lemma {:induction false} RunKeepsMembers(tables: seq<Table>, steps: seq<Step>, channel: string)
    requires IsRun(tables, steps)
    ensures OneRowEach(tables[|steps|])
    ensures Members(tables[|steps|], channel) == MembersAfter(steps, channel)
    decreases |steps|
  {
    if steps != [] {
      var n := |steps| - 1;
      RunKeepsMembers(tables[..n + 1], steps[..n], channel);
      assert Next(tables[n], tables[n + 1], steps[n]);
      match steps[n]
      case Grow(c, users, ids, now) =>
        AddedMeans(tables[n], tables[n + 1], c, users - Members(tables[n], c), ids, now);
      case Shrink(c, users) => RemovedMeans(tables[n], c, users);
    }
  }

  /** After any run the direct-message lookup finds exactly the channels whose requested members are the given users. */
  lemma LookupAfterRun(tables: seq<Table>, steps: seq<Step>, channel: string, users: set<string>)
    requires IsRun(tables, steps)
    ensures DmMatches(tables[|steps|], channel, users) <==> users != {} && MembersAfter(steps, channel) == users
  {
    RunKeepsMembers(tables, steps, channel);
    DmMatchesIff(tables[|steps|], channel, users);
  }

  class ChannelTable {
    var rows: Table

    constructor ()
      ensures rows == map[] && OneRowEach(rows)
    {
      rows := map[];
    }

    method CreateMemberships(channel: string, users: set<string>, ids: map<string, string>, now: int)
      requires Minted(rows, users, ids)
      modifies this
      ensures Added(old(rows), rows, channel, users, ids, now)
    {
      var left := users;
      while left != {}
        invariant left <= users
        invariant Added(old(rows), rows, channel, users - left, ids, now)
        decreases left
      {
        var u :| u in left;
        left := left - {u};
        rows := rows[ids[u] := Member(channel, u, now)];
      }
      assert users - left == users;
    }

    /** A new group or DM channel starts with the given users and the inviter. */
    method InsertNewChannel(channel: string, invitedBy: string, users: set<string>, ids: map<string, string>, now: int)
      requires OneRowEach(rows) && Members(rows, channel) == {} && Minted(rows, users + {invitedBy}, ids)
      modifies this
      ensures OneRowEach(rows)
      ensures Next(old(rows), rows, Grow(channel, users + {invitedBy}, ids, now))
      ensures Members(rows, channel) == users + {invitedBy}
      ensures forall c :: c != channel ==> Members(rows, c) == Members(old(rows), c)
    {
      assert users + {invitedBy} - Members(rows, channel) == users + {invitedBy};
      CreateMemberships(channel, users + {invitedBy}, ids, now);
      AddedMeans(old(rows), rows, channel, users + {invitedBy}, ids, now);
    }

    /** Invites only those who are not members yet, the inviter included. */
    method AddMembers(channel: string, invitedBy: string, users: set<string>, ids: map<string, string>, now: int)
      requires OneRowEach(rows) && Minted(rows, (users + {invitedBy}) - Members(rows, channel), ids)
      modifies this
      ensures OneRowEach(rows)
      ensures Next(old(rows), rows, Grow(channel, users + {invitedBy}, ids, now))
      ensures Members(rows, channel) == Members(old(rows), channel) + users + {invitedBy}
      ensures forall c :: c != channel ==> Members(rows, c) == Members(old(rows), c)
    {
      var fresh_ := (users + {invitedBy}) - Members(rows, channel);
      if fresh_ == {} {
        assert forall u :: u in fresh_ <==> u in users + {invitedBy} && u !in Members(rows, channel);
        return;
      }
      CreateMemberships(channel, fresh_, ids, now);
      AddedMeans(old(rows), rows, channel, fresh_, ids, now);
    }

    method JoinChannel(channel: string, user: string, id: string, now: int)
      requires OneRowEach(rows) && id !in rows
      modifies this
      ensures OneRowEach(rows)
      ensures Next(old(rows), rows, Grow(channel, {user}, map[user := id], now))
      ensures Members(rows, channel) == Members(old(rows), channel) + {user}
      ensures forall c :: c != channel ==> Members(rows, c) == Members(old(rows), c)
    {
      if i :| i in rows && rows[i].channelId == channel && rows[i].userId == user {
        assert user in Members(rows, channel);
        assert {user} - Members(rows, channel) == {};
        return;
      }
      assert {user} - Members(rows, channel) == {user};
      rows := rows[id := Member(channel, user, now)];
      AddedMeans(old(rows), rows, channel, {user}, map[user := id], now);
    }

    method RemoveMembers(channel: string, users: set<string>) returns (removed: nat)
      requires OneRowEach(rows)
      modifies this
      ensures OneRowEach(rows)
      ensures Next(old(rows), rows, Shrink(channel, users))
      ensures Members(rows, channel) == Members(old(rows), channel) - users
      ensures forall c :: c != channel ==> Members(rows, c) == Members(old(rows), c)
      ensures removed == |old(rows)| - |rows|
    {
      var gone := RowsFor(rows, channel, users);
      SubsetSize(rows.Keys - gone, rows.Keys);
      RemovedMeans(rows, channel, users);
      removed := |rows| - |rows - gone|;
      rows := rows - gone;
    }
  }
}
