/**
 The bridge between the legacy access_control JSON and flat grants. The converters build lists in
 loops; each loop is proved against a function on sequences.
 */
module LegacyAccess {
  import opened Options
  import opened Seqs

  /** Text columns; the values the code tests for are constructors. */
  datatype PrincipalType = User | Group | OtherType(name: string)

  datatype Permission = Read | Write | OtherPermission(name: string)

  /** One grant: the columns of access_grant that its uniqueness constraint covers. */
  datatype Key = Key(resourceType: string, resourceId: string,
                     principalType: PrincipalType, principalId: string, permission: Permission)

  /** The value under "read" or "write"; None is a missing list. */
  datatype Lists = Lists(groupIds: Option<seq<string>>, userIds: Option<seq<string>>)

  /** A legacy dict; None is a missing or falsy entry. The JSON null is None of Option<AccessControl>. */
  datatype AccessControl = AccessControl(read: Option<Lists>, write: Option<Lists>)

  const PRIVATE: AccessControl := AccessControl(None, None)

  function Groups(p: Option<Lists>): seq<string> {
    if p.Some? && p.value.groupIds.Some? then p.value.groupIds.value else []
  }

  function Users(p: Option<Lists>): seq<string> {
    if p.Some? && p.value.userIds.Some? then p.value.userIds.value else []
  }

  function KeysFor(rt: string, rid: string, principalType: PrincipalType, permission: Permission, ids: seq<string>)
    : seq<Key>
  {
    seq(|ids|, i requires 0 <= i < |ids| => Key(rt, rid, principalType, ids[i], permission))
  }

  function PermissionKeys(rt: string, rid: string, permission: Permission, p: Option<Lists>): seq<Key> {
    KeysFor(rt, rid, Group, permission, Groups(p)) + KeysFor(rt, rid, User, permission, Users(p))
  }

  /** What access_control_to_grants returns. */
  function ToGrants(rt: string, rid: string, ac: Option<AccessControl>): seq<Key> {
    match ac
    case None => if rt == "file" then [] else [Key(rt, rid, User, "*", Read)]
    case Some(d) => PermissionKeys(rt, rid, Read, d.read) + PermissionKeys(rt, rid, Write, d.write)
  }

  predicate PublicRead(k: Key) {
    k.principalType == User && k.principalId == "*" && k.permission == Read
  }

  predicate HasPublicRead(keys: seq<Key>) {
    exists k :: k in keys && PublicRead(k)
  }

  /** The principals a grant list names for one principal type and permission, in order. */
  function Principals(keys: seq<Key>, principalType: PrincipalType, permission: Permission): seq<string> {
    if keys == [] then []
    else
      var k := keys[|keys| - 1];
      Principals(keys[..|keys| - 1], principalType, permission)
      + if !PublicRead(k) && k.principalType == principalType && k.permission == permission then [k.principalId] else []
  }

  function Listed(keys: seq<Key>, permission: Permission): Lists {
    Lists(Some(Dedup(Principals(keys, Group, permission))), Some(Dedup(Principals(keys, User, permission))))
  }

  /** What grants_to_access_control returns. */
  function ToAccessControl(keys: seq<Key>): Option<AccessControl> {
    if keys == [] then Some(PRIVATE)
    else if HasPublicRead(keys) then None
    else Some(AccessControl(Some(Listed(keys, Read)), Some(Listed(keys, Write))))
  }

  /** The legacy lists of one permission name the principal. */
  ghost predicate InLists(p: Option<Lists>, t: PrincipalType, id: string) {
    && p.Some?
    && ((t == Group && p.value.groupIds.Some? && id in p.value.groupIds.value)
        || (t == User && p.value.userIds.Some? && id in p.value.userIds.value))
  }

  /** A legacy value gives a principal a permission; null gives everybody the reading of all but files. */
  ghost predicate Gives(rt: string, ac: Option<AccessControl>, t: PrincipalType, p: Permission, id: string) {
    match ac
    case None => rt != "file" && t == User && id == "*" && p == Read
    case Some(d) => (p == Read && InLists(d.read, t, id)) || (p == Write && InLists(d.write, t, id))
  }

  /** The grants are what the legacy value gives on that resource. */
  lemma ToGrantsMeans(rt: string, rid: string, ac: Option<AccessControl>, k: Key)
    ensures k in ToGrants(rt, rid, ac)
       <==> k.resourceType == rt && k.resourceId == rid && Gives(rt, ac, k.principalType, k.permission, k.principalId)
  {
    if ac.Some? {
      forall t, p, ids
        ensures k in KeysFor(rt, rid, t, p, ids) <==> k == Key(rt, rid, t, k.principalId, p) && k.principalId in ids
      {
        if k.principalId in ids {
          var i :| 0 <= i < |ids| && ids[i] == k.principalId;
          assert KeysFor(rt, rid, t, p, ids)[i] == Key(rt, rid, t, k.principalId, p);
        }
      }
    }
  }

  // ---------- the converters' loops ----------

  method PermissionGrants(rt: string, rid: string, permission: Permission, lists: Option<Lists>)
    returns (grants: seq<Key>)
    ensures grants == PermissionKeys(rt, rid, permission, lists)
  {
    grants := [];
    if lists == None || lists == Some(Lists(None, None)) { return; }
    var groupIds, userIds := Groups(lists), Users(lists);
    for j := 0 to |groupIds|
      invariant grants == KeysFor(rt, rid, Group, permission, groupIds[..j])
    {
      grants := grants + [Key(rt, rid, Group, groupIds[j], permission)];
    }
    assert groupIds[..|groupIds|] == groupIds;
    ghost var middle := grants;
    for j := 0 to |userIds|
      invariant grants == middle + KeysFor(rt, rid, User, permission, userIds[..j])
    {
      grants := grants + [Key(rt, rid, User, userIds[j], permission)];
    }
    assert userIds[..|userIds|] == userIds;
  }

  method AccessControlToGrants(rt: string, rid: string, ac: Option<AccessControl>) returns (grants: seq<Key>)
    ensures grants == ToGrants(rt, rid, ac)
  {
    if ac.None? {
      if rt != "file" { return [Key(rt, rid, User, "*", Read)]; }
      return [];
    }
    var read := PermissionGrants(rt, rid, Read, ac.value.read);
    var write := PermissionGrants(rt, rid, Write, ac.value.write);
    return read + write;
  }

  /** Appends id to a list that does not have it yet. */
  function Added(list: seq<string>, id: string): seq<string> {
    if id in list then list else list + [id]
  }

  predicate IsSlot(slot: (PrincipalType, Permission)) {
    (slot.0 == User || slot.0 == Group) && (slot.1 == Read || slot.1 == Write)
  }

  /** The four lists hold what `keys` names, each id once. */
  ghost predicate Collected(lists: map<(PrincipalType, Permission), seq<string>>, keys: seq<Key>) {
    && (forall slot :: slot in lists <==> IsSlot(slot))
    && (forall slot :: slot in lists ==> lists[slot] == Dedup(Principals(keys, slot.0, slot.1)))
  }

  lemma NothingCollected(lists: map<(PrincipalType, Permission), seq<string>>)
    requires forall slot :: slot in lists <==> IsSlot(slot)
    requires forall slot :: slot in lists ==> lists[slot] == []
    ensures Collected(lists, [])
  {
  }

  lemma PublicStep(keys: seq<Key>, k: Key)
    ensures HasPublicRead(keys + [k]) <==> HasPublicRead(keys) || PublicRead(k)
  {
    if HasPublicRead(keys) {
      var x :| x in keys && PublicRead(x);
      assert x in keys + [k];
    }
    assert k in keys + [k];
  }

  lemma PrincipalsStep(keys: seq<Key>, k: Key, t: PrincipalType, p: Permission)
    ensures Principals(keys + [k], t, p)
         == if !PublicRead(k) && k.principalType == t && k.permission == p
            then Principals(keys, t, p) + [k.principalId] else Principals(keys, t, p)
  {
    assert (keys + [k])[..|keys|] == keys;
    assert Principals(keys, t, p) + [] == Principals(keys, t, p);
  }

  lemma CollectStep(keys: seq<Key>, k: Key, t: PrincipalType, p: Permission)
    ensures Dedup(Principals(keys + [k], t, p))
         == if !PublicRead(k) && k.principalType == t && k.permission == p
            then Added(Dedup(Principals(keys, t, p)), k.principalId)
            else Dedup(Principals(keys, t, p))
  {
    PrincipalsStep(keys, k, t, p);
    DedupStep(Principals(keys, t, p), k.principalId);
  }

  lemma CollectedStep(lists: map<(PrincipalType, Permission), seq<string>>, keys: seq<Key>, k: Key)
    requires Collected(lists, keys)
    ensures var slot := (k.principalType, k.permission);
            Collected(if PublicRead(k) || !IsSlot(slot) then lists
                      else lists[slot := Added(lists[slot], k.principalId)], keys + [k])
  {
    var slot := (k.principalType, k.permission);
    var lists' := if PublicRead(k) || !IsSlot(slot) then lists else lists[slot := Added(lists[slot], k.principalId)];
    assert forall other :: other in lists' <==> IsSlot(other);
    forall other | other in lists'
      ensures lists'[other] == Dedup(Principals(keys + [k], other.0, other.1))
    {
      CollectStep(keys, k, other.0, other.1);
    }
  }

  method GrantsToAccessControl(keys: seq<Key>) returns (ac: Option<AccessControl>)
    ensures ac == ToAccessControl(keys)
  {
    if keys == [] { return Some(PRIVATE); }
    var lists: map<(PrincipalType, Permission), seq<string>> :=
      map[(Group, Read) := [], (User, Read) := [], (Group, Write) := [], (User, Write) := []];
    var isPublic := false;
    assert Collected(lists, keys[..0]) by { NothingCollected(lists); }
    for i := 0 to |keys|
      invariant isPublic <==> HasPublicRead(keys[..i])
      invariant Collected(lists, keys[..i])
    {
      var k := keys[i];
      PrefixStep(keys, i);
      PublicStep(keys[..i], k);
      CollectedStep(lists, keys[..i], k);
      if PublicRead(k) {
        isPublic := true;
      } else if IsSlot((k.principalType, k.permission)) {
        var slot := (k.principalType, k.permission);
        lists := lists[slot := Added(lists[slot], k.principalId)];
      }
    }
    assert keys[..|keys|] == keys;
    if isPublic { return None; }
    return Some(AccessControl(Some(Lists(Some(lists[(Group, Read)]), Some(lists[(User, Read)]))),
                              Some(Lists(Some(lists[(Group, Write)]), Some(lists[(User, Write)])))));
  }

  lemma {:induction false} PrincipalsAre(keys: seq<Key>, t: PrincipalType, p: Permission, id: string)
    ensures id in Principals(keys, t, p)
       <==> exists k :: k in keys && !PublicRead(k) && k.principalType == t && k.permission == p && k.principalId == id
    decreases |keys|
  {
    if keys != [] {
      var most, last := keys[..|keys| - 1], keys[|keys| - 1];
      assert keys == most + [last];
      PrincipalsStep(most, last, t, p);
      PrincipalsAre(most, t, p, id);
    }
  }

  /**
   Back from grants: public exactly when some grant lets everybody read, otherwise the legacy value gives
   precisely the users and groups their granted readings and writings.
   */
  lemma ToAccessControlMeans(rt: string, keys: seq<Key>, t: PrincipalType, p: Permission, id: string)
    requires t in {User, Group} && p in {Read, Write}
    ensures ToAccessControl(keys).None?
       <==> exists k :: k in keys && k.principalType == User && k.principalId == "*" && k.permission == Read
    ensures ToAccessControl(keys).Some? ==>
              (Gives(rt, ToAccessControl(keys), t, p, id)
               <==> exists k :: k in keys && k.principalType == t && k.permission == p && k.principalId == id)
  {
    if HasPublicRead(keys) {
      var k :| k in keys && PublicRead(k);
      assert k.principalType == User;
    } else {
      assert forall k :: k in keys ==> !PublicRead(k);
      PrincipalsAre(keys, t, p, id);
    }
  }

  // ---------- the round trip ----------

  lemma {:induction false} PrincipalsConcat(a: seq<Key>, b: seq<Key>, t: PrincipalType, p: Permission)
    ensures Principals(a + b, t, p) == Principals(a, t, p) + Principals(b, t, p)
    decreases |b|
  {
    if b == [] {
      assert a + b == a;
    } else {
      assert (a + b)[..|a + b| - 1] == a + b[..|b| - 1];
      PrincipalsConcat(a, b[..|b| - 1], t, p);
    }
  }

  lemma KeysForStep(rt: string, rid: string, t: PrincipalType, p: Permission, ids: seq<string>, id: string)
    ensures KeysFor(rt, rid, t, p, ids + [id]) == KeysFor(rt, rid, t, p, ids) + [Key(rt, rid, t, id, p)]
  {
  }

  lemma {:induction false} PrincipalsOfList(rt: string, rid: string, t: PrincipalType, p: Permission, ids: seq<string>,
                                            t': PrincipalType, p': Permission)
    requires t == User && p == Read ==> "*" !in ids
    ensures Principals(KeysFor(rt, rid, t, p, ids), t', p') == if t == t' && p == p' then ids else []
    decreases |ids|
  {
    if ids != [] {
      var most, last := ids[..|ids| - 1], ids[|ids| - 1];
      assert ids == most + [last] && last in ids;
      PrincipalsOfList(rt, rid, t, p, most, t', p');
      PrincipalsStep(KeysFor(rt, rid, t, p, most), Key(rt, rid, t, last, p), t', p');
      KeysForStep(rt, rid, t, p, most, last);
    }
  }

  /** No principal is named at all. */
  predicate NamesNobody(d: AccessControl) {
    Groups(d.read) == [] && Users(d.read) == [] && Groups(d.write) == [] && Users(d.write) == []
  }

  function Tidy(p: Option<Lists>): Option<Lists> {
    Some(Lists(Some(Dedup(Groups(p))), Some(Dedup(Users(p)))))
  }

  /** The legacy value that survives a trip through the grant table. */
  function Canonical(rt: string, ac: Option<AccessControl>): Option<AccessControl> {
    match ac
    case None => if rt == "file" then Some(PRIVATE) else None
    case Some(d) =>
      if NamesNobody(d) then Some(PRIVATE)
      else if "*" in Users(d.read) then None
      else Some(AccessControl(Tidy(d.read), Tidy(d.write)))
  }

  lemma WildcardReaderIsPublic(rt: string, rid: string, d: AccessControl)
    requires "*" in Users(d.read)
    ensures HasPublicRead(ToGrants(rt, rid, Some(d)))
  {
    var keys := ToGrants(rt, rid, Some(d));
    var i :| 0 <= i < |Users(d.read)| && Users(d.read)[i] == "*";
    assert keys[|Groups(d.read)| + i] == Key(rt, rid, User, "*", Read);
    assert PublicRead(keys[|Groups(d.read)| + i]);
  }

  lemma NoPublicGrant(rt: string, rid: string, d: AccessControl)
    requires "*" !in Users(d.read)
    ensures !HasPublicRead(ToGrants(rt, rid, Some(d)))
    ensures !NamesNobody(d) ==> ToGrants(rt, rid, Some(d)) != []
  {
  }

  function ListFor(d: AccessControl, t: PrincipalType, p: Permission): seq<string> {
    var lists := if p == Read then d.read else d.write;
    if t == Group then Groups(lists) else Users(lists)
  }

  lemma OneOfFour(a: seq<string>, b: seq<string>, c: seq<string>, d: seq<string>, x: seq<string>)
    requires || (a == x && b == c == d == []) || (b == x && a == c == d == [])
             || (c == x && a == b == d == []) || (d == x && a == b == c == [])
    ensures (a + b) + (c + d) == x
  {
  }

  lemma PrincipalsOfFour(a: seq<Key>, b: seq<Key>, c: seq<Key>, d: seq<Key>, t: PrincipalType, p: Permission)
    ensures Principals((a + b) + (c + d), t, p)
         == (Principals(a, t, p) + Principals(b, t, p)) + (Principals(c, t, p) + Principals(d, t, p))
  {
    PrincipalsConcat(a + b, c + d, t, p);
    PrincipalsConcat(a, b, t, p);
    PrincipalsConcat(c, d, t, p);
  }

  lemma PrincipalsOfGrants(rt: string, rid: string, d: AccessControl, t: PrincipalType, p: Permission)
    requires "*" !in Users(d.read) && t in {Group, User} && p in {Read, Write}
    ensures Principals(ToGrants(rt, rid, Some(d)), t, p) == ListFor(d, t, p)
  {
    var r1, r2 := KeysFor(rt, rid, Group, Read, Groups(d.read)), KeysFor(rt, rid, User, Read, Users(d.read));
    var w1, w2 := KeysFor(rt, rid, Group, Write, Groups(d.write)), KeysFor(rt, rid, User, Write, Users(d.write));
    PrincipalsOfFour(r1, r2, w1, w2, t, p);
    PrincipalsOfList(rt, rid, Group, Read, Groups(d.read), t, p);
    PrincipalsOfList(rt, rid, User, Read, Users(d.read), t, p);
    PrincipalsOfList(rt, rid, Group, Write, Groups(d.write), t, p);
    PrincipalsOfList(rt, rid, User, Write, Users(d.write), t, p);
    OneOfFour(Principals(r1, t, p), Principals(r2, t, p), Principals(w1, t, p), Principals(w2, t, p), ListFor(d, t, p));
  }

  /** Converting to grants and back yields the original with its lists tidied. */
  lemma RoundTrip(rt: string, rid: string, ac: Option<AccessControl>)
    ensures ToAccessControl(ToGrants(rt, rid, ac)) == Canonical(rt, ac)
  {
    var keys := ToGrants(rt, rid, ac);
    if ac.None? {
      if rt != "file" { assert PublicRead(keys[0]); }
    } else if NamesNobody(ac.value) {
      assert keys == [];
    } else if "*" in Users(ac.value.read) {
      WildcardReaderIsPublic(rt, rid, ac.value);
    } else {
      var d := ac.value;
      NoPublicGrant(rt, rid, d);
      PrincipalsOfGrants(rt, rid, d, Group, Read);
      PrincipalsOfGrants(rt, rid, d, User, Read);
      PrincipalsOfGrants(rt, rid, d, Group, Write);
      PrincipalsOfGrants(rt, rid, d, User, Write);
    }
  }

  lemma DedupEmptyIff(s: seq<string>)
    ensures Dedup(s) == [] <==> s == []
  {
    if s != [] { assert s[0] in Dedup(s); }
  }

  lemma TidyTwice(p: Option<Lists>)
    ensures Tidy(Tidy(p)) == Tidy(p)
    ensures Groups(Tidy(p)) == [] <==> Groups(p) == []
    ensures Users(Tidy(p)) == [] <==> Users(p) == []
    ensures "*" in Users(Tidy(p)) <==> "*" in Users(p)
  {
    DedupTwice(Groups(p));
    DedupTwice(Users(p));
    DedupEmptyIff(Groups(p));
    DedupEmptyIff(Users(p));
  }

  /**
   Converting a second time changes nothing, with one exception: on a file a wildcard reader becomes
   the public value None, which for files means private.
   */
  lemma SecondTripStableIff(rt: string, ac: Option<AccessControl>)
    ensures Canonical(rt, Canonical(rt, ac)) == Canonical(rt, ac)
       <==> !(rt == "file" && ac.Some? && "*" in Users(ac.value.read))
  {
    if ac.Some? && !NamesNobody(ac.value) && "*" !in Users(ac.value.read) {
      TidyTwice(ac.value.read);
      TidyTwice(ac.value.write);
    }
  }

  /** A file everybody may read converts to public, and public on a file converts to private. */
  lemma SecondTripDiffers()
    ensures var ac := Some(AccessControl(Some(Lists(None, Some(["*"]))), None));
            Canonical("file", ac) == None && Canonical("file", Canonical("file", ac)) == Some(PRIVATE)
  {
    assert Users(Some(Lists(None, Some(["*"]))))[0] == "*";
  }
}
