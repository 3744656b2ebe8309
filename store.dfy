/**
 * The database: one map per Mongo collection, from the hexadecimal text of a
 * document's ObjectId to the document, and the set of uploaded files on disk.
 * Valid() is what the schemas and the unique indexes guarantee of the stored
 * data, plus the binding between sarpanch users and villages that the
 * registration handler keeps.
 */
module Store {
  import opened Js
  import opened Http
  import opened UserModel
  import V = VillageModel
  import C = ComplaintModel
  import N = NoticeModel
  import J = JobModel
  import S = SchemeModel
  import W = WorkDoneModel

  // ---------------------------------------------------------------------
  // Object ids
  // ---------------------------------------------------------------------

  predicate IsHexDigit(c: char)
  {
    ('0' <= c <= '9') || ('a' <= c <= 'f') || ('A' <= c <= 'F')
  }

  /** `mongoose.Types.ObjectId.isValid(id)` for the 24-digit hexadecimal form. */
  predicate IsObjectId(id: string)
  {
    |id| == 24 && forall i :: 0 <= i < |id| ==> IsHexDigit(id[i])
  }

  /** The canonical text of an ObjectId, as `_id.toString()` prints it. */
  predicate IsKey(k: string)
  {
    IsObjectId(k) && ToLower(k) == k
  }

  /** The document key an id string is cast to: hexadecimal digits in
      either case name the same ObjectId. */
  function Key(id: string): (k: string)
    ensures |k| == |id|
    ensures IsObjectId(id) ==> IsKey(k)
    ensures IsKey(id) ==> k == id
  {
    LowerHexIsKey(id);
    ToLower(id)
  }

  lemma LowerHexIsKey(id: string)
    ensures IsObjectId(id) ==> IsKey(ToLower(id))
  {
    var k := ToLower(id);
    if IsObjectId(id) {
      forall i | 0 <= i < |k|
        ensures IsHexDigit(k[i]) && ToLower(k)[i] == k[i]
      {
        assert k[i] == LowerChar(id[i]);
      }
      assert ToLower(k) == k;
    }
  }

  // ---------------------------------------------------------------------
  // Lookups and the guards every resource handler runs
  // ---------------------------------------------------------------------

  /** `isValid(id)` (400), then `findById(id)` and a scope test on the
      record (404); a record the caller may not see is reported as missing. */
  function FindVisible<T>(m: map<string, T>, id: string, visible: T -> bool,
                          invalid: string, missing: string): (r: Outcome<string>)
    ensures r.Ok? <==> IsObjectId(id) && Key(id) in m && visible(m[Key(id)])
    ensures r.Ok? ==> r.value == Key(id) && r.status == 200
    ensures !IsObjectId(id) ==> r == Throw(400, invalid)
    ensures IsObjectId(id) && r.Fail? ==> r == Throw(404, missing)
  {
    if !IsObjectId(id) then Throw(400, invalid)
    else if Key(id) !in m || !visible(m[Key(id)]) then Throw(404, missing)
    else Ok(200, Key(id))
  }

  /** `isValid(id)` (400), then `findById(id)` (404), then the owner of the
      record against the caller's id (403). */
  function FindOwned<T>(m: map<string, T>, id: string, owner: T -> string, caller: string,
                        invalid: string, missing: string, forbidden: string): (r: Outcome<string>)
    ensures r.Ok? <==> IsObjectId(id) && Key(id) in m && owner(m[Key(id)]) == caller
    ensures r.Ok? ==> r.value == Key(id) && r.status == 200
    ensures !IsObjectId(id) ==> r == Throw(400, invalid)
    ensures IsObjectId(id) && Key(id) !in m ==> r == Throw(404, missing)
    ensures IsObjectId(id) && Key(id) in m && owner(m[Key(id)]) != caller ==> r == Throw(403, forbidden)
  {
    if !IsObjectId(id) then Throw(400, invalid)
    else if Key(id) !in m then Throw(404, missing)
    else if owner(m[Key(id)]) != caller then Throw(403, forbidden)
    else Ok(200, Key(id))
  }

  /** An id is found whatever the case of its hexadecimal digits. */
  lemma FindVisibleIgnoresCase<T>(m: map<string, T>, id: string, visible: T -> bool,
                                  invalid: string, missing: string)
    requires IsObjectId(id)
    ensures FindVisible(m, ToLower(id), visible, invalid, missing) == FindVisible(m, id, visible, invalid, missing)
  {
    assert Key(id) == ToLower(id);
  }

  /** Ownership is all that decides: a record of another owner is never
      returned, and the owner always gets it. */
  lemma OwnerDecides<T>(m: map<string, T>, k: string, owner: T -> string, caller: string,
                        invalid: string, missing: string, forbidden: string)
    requires IsKey(k) && k in m
    ensures FindOwned(m, k, owner, caller, invalid, missing, forbidden).Ok? <==> owner(m[k]) == caller
  {
  }

  // ---------------------------------------------------------------------
  // The invariant of the stored data
  // ---------------------------------------------------------------------

  predicate KeysValid<T>(m: map<string, T>)
  {
    forall k {:trigger IsKey(k)} :: k in m ==> IsKey(k)
  }

  /** A collection of records that each pass `stored`, under ObjectId keys. */
  predicate Collection<T>(m: map<string, T>, stored: T -> bool)
  {
    KeysValid(m) && forall k :: k in m ==> stored(m[k])
  }

  lemma CollectionInsert<T>(m: map<string, T>, k: string, v: T, stored: T -> bool)
    requires Collection(m, stored) && IsKey(k) && stored(v)
    ensures Collection(m[k := v], stored)
  {
  }

  lemma CollectionRemove<T>(m: map<string, T>, k: string, stored: T -> bool)
    requires Collection(m, stored)
    ensures Collection(m - {k}, stored)
  {
  }

  predicate UsersStored(users: map<string, User>)
  {
    forall k {:trigger Stored(users[k])} :: k in users ==> Stored(users[k])
  }

  /** The unique indexes on email and mobile. */
  predicate ContactsUnique(users: map<string, User>)
  {
    forall a, b :: a in users && b in users && a != b ==>
      users[a].email != users[b].email && users[a].mobile != users[b].mobile
  }

  /** Every user passes its schema; the unique indexes on email and mobile. */
  predicate UsersValid(users: map<string, User>)
  {
    KeysValid(users) && UsersStored(users) && ContactsUnique(users)
  }

  /** No user other than `k` has the email or the mobile of `u`. */
  predicate ContactsFree(users: map<string, User>, k: string, u: User)
  {
    forall j :: j in users && j != k ==> users[j].email != u.email && users[j].mobile != u.mobile
  }

  predicate VillagesStored(villages: map<string, V.Village>)
  {
    forall k {:trigger V.Stored(villages[k])} :: k in villages ==> V.Stored(villages[k])
  }

  /** The village names a sarpanch whose (normalised) village it is. */
  predicate BoundTo(users: map<string, User>, v: V.Village)
  {
    v.sarpanchId in users
    && users[v.sarpanchId].role == Sarpanch
    && LowerTrimmed(users[v.sarpanchId].villageName) == v.name
  }

  predicate VillagesBound(villages: map<string, V.Village>, users: map<string, User>)
  {
    forall k {:trigger BoundTo(users, villages[k])} :: k in villages ==> BoundTo(users, villages[k])
  }

  /** The unique indexes on name and sarpanchId. */
  predicate VillagesUnique(villages: map<string, V.Village>)
  {
    forall a, b :: a in villages && b in villages && a != b ==>
      villages[a].name != villages[b].name && villages[a].sarpanchId != villages[b].sarpanchId
  }

  predicate SarpanchesHaveVillage(villages: map<string, V.Village>, users: map<string, User>)
  {
    forall u :: u in users && users[u].role == Sarpanch ==> HasVillage(villages, u)
  }

  /** Every village passes its schema and names a sarpanch whose village it
      is; the unique indexes on name and sarpanchId; and every sarpanch has
      a village. */
  predicate VillagesValid(villages: map<string, V.Village>, users: map<string, User>)
  {
    && KeysValid(villages)
    && VillagesStored(villages)
    && VillagesBound(villages, users)
    && VillagesUnique(villages)
    && SarpanchesHaveVillage(villages, users)
  }

  predicate HasVillage(villages: map<string, V.Village>, sarpanch: string)
  {
    exists k :: k in villages && villages[k].sarpanchId == sarpanch
  }

  class Db {
    var users: map<string, User>
    var villages: map<string, V.Village>
    var complaints: map<string, C.Complaint>
    var notices: map<string, N.Notice>
    var jobs: map<string, J.Job>
    var schemes: map<string, S.Scheme>
    var works: map<string, W.WorkDone>
    var files: set<string>

    ghost predicate Valid()
      reads this
    {
      && UsersValid(users)
      && VillagesValid(villages, users)
      && Collection(complaints, C.Stored)
      && Collection(notices, N.Stored)
      && Collection(jobs, J.Stored)
      && Collection(schemes, S.Stored)
      && Collection(works, W.Stored)
    }

    /** `save()` / `create()` of a Complaint that passes its schema. */
    method PutComplaint(k: string, v: C.Complaint)
      requires Valid() && IsKey(k) && C.Stored(v)
      modifies this`complaints
      ensures Valid() && complaints == old(complaints)[k := v]
    {
      CollectionInsert(complaints, k, v, C.Stored);
      complaints := complaints[k := v];
    }

    /** `deleteOne()` of a Complaint. */
    method DeleteComplaint(k: string)
      requires Valid()
      modifies this`complaints
      ensures Valid() && complaints == old(complaints) - {k}
    {
      CollectionRemove(complaints, k, C.Stored);
      complaints := complaints - {k};
    }

    /** `save()` / `create()` of a Notice that passes its schema. */
    method PutNotice(k: string, v: N.Notice)
      requires Valid() && IsKey(k) && N.Stored(v)
      modifies this`notices
      ensures Valid() && notices == old(notices)[k := v]
    {
      CollectionInsert(notices, k, v, N.Stored);
      notices := notices[k := v];
    }

    /** `deleteOne()` of a Notice. */
    method DeleteNotice(k: string)
      requires Valid()
      modifies this`notices
      ensures Valid() && notices == old(notices) - {k}
    {
      CollectionRemove(notices, k, N.Stored);
      notices := notices - {k};
    }

    /** `save()` / `create()` of a Job that passes its schema. */
    method PutJob(k: string, v: J.Job)
      requires Valid() && IsKey(k) && J.Stored(v)
      modifies this`jobs
      ensures Valid() && jobs == old(jobs)[k := v]
    {
      CollectionInsert(jobs, k, v, J.Stored);
      jobs := jobs[k := v];
    }

    /** `deleteOne()` of a Job. */
    method DeleteJob(k: string)
      requires Valid()
      modifies this`jobs
      ensures Valid() && jobs == old(jobs) - {k}
    {
      CollectionRemove(jobs, k, J.Stored);
      jobs := jobs - {k};
    }

    /** `save()` / `create()` of a Scheme that passes its schema. */
    method PutScheme(k: string, v: S.Scheme)
      requires Valid() && IsKey(k) && S.Stored(v)
      modifies this`schemes
      ensures Valid() && schemes == old(schemes)[k := v]
    {
      CollectionInsert(schemes, k, v, S.Stored);
      schemes := schemes[k := v];
    }

    /** `deleteOne()` of a Scheme. */
    method DeleteScheme(k: string)
      requires Valid()
      modifies this`schemes
      ensures Valid() && schemes == old(schemes) - {k}
    {
      CollectionRemove(schemes, k, S.Stored);
      schemes := schemes - {k};
    }

    /** `save()` / `create()` of a Work that passes its schema. */
    method PutWork(k: string, v: W.WorkDone)
      requires Valid() && IsKey(k) && W.Stored(v)
      modifies this`works
      ensures Valid() && works == old(works)[k := v]
    {
      CollectionInsert(works, k, v, W.Stored);
      works := works[k := v];
    }

    /** `deleteOne()` of a Work. */
    method DeleteWork(k: string)
      requires Valid()
      modifies this`works
      ensures Valid() && works == old(works) - {k}
    {
      CollectionRemove(works, k, W.Stored);
      works := works - {k};
    }

    /** `fs.unlink(path)`: the file is gone, whether or not it was there. */
    method RemoveFile(path: string)
      requires Valid()
      modifies this`files
      ensures Valid() && files == old(files) - {path}
    {
      files := files - {path};
    }

    /** Replaces the user collection by one that keeps the invariant with
        the villages as they are. */
    method SetUsers(updated: map<string, User>)
      requires Valid() && UsersValid(updated) && VillagesValid(villages, updated)
      modifies this`users
      ensures users == updated
      ensures Valid() && unchanged(this`villages, this`files)
    {
      users := updated;
      assert UsersValid(users) && VillagesValid(villages, users);
      assert Collection(complaints, C.Stored) && Collection(notices, N.Stored) && Collection(jobs, J.Stored)
             && Collection(schemes, S.Stored) && Collection(works, W.Stored);
    }

    /** Replaces the users and the villages together by a pair that keeps
        the invariant. */
    method SetRegistry(updatedUsers: map<string, User>, updatedVillages: map<string, V.Village>)
      requires Valid() && UsersValid(updatedUsers) && VillagesValid(updatedVillages, updatedUsers)
      modifies this`users, this`villages
      ensures users == updatedUsers && villages == updatedVillages
      ensures Valid() && unchanged(this`files)
    {
      users, villages := updatedUsers, updatedVillages;
      assert UsersValid(users) && VillagesValid(villages, users);
      assert Collection(complaints, C.Stored) && Collection(notices, N.Stored) && Collection(jobs, J.Stored)
             && Collection(schemes, S.Stored) && Collection(works, W.Stored);
    }

    /** `User.create` of a sarpanch followed by `Village.create` of the
        village bound to it, under a name no village has. */
    method AddSarpanch(uid: string, u: User, vid: string, v: V.Village)
      requires Valid() && IsKey(uid) && uid !in users && Stored(u) && u.role == Sarpanch
      requires ContactsFree(users, uid, u)
      requires IsKey(vid) && vid !in villages && V.Stored(v)
      requires v.sarpanchId == uid && v.name == LowerTrimmed(u.villageName)
      requires forall j :: j in villages ==> villages[j].name != v.name
      modifies this`users, this`villages
      ensures users == old(users)[uid := u] && villages == old(villages)[vid := v]
      ensures Valid() && unchanged(this`files)
    {
      RegisterSarpanchKeepsValid(users, villages, uid, u, vid, v);
      SetRegistry(users[uid := u], villages[vid := v]);
    }

    /** `User.create` of a people user whose email and mobile are free. */
    method CreateUser(k: string, u: User)
      requires Valid() && IsKey(k) && k !in users && Stored(u) && u.role == People
      requires ContactsFree(users, k, u)
      modifies this`users
      ensures users == old(users)[k := u]
      ensures Valid() && unchanged(this`villages, this`files)
    {
      AddPeopleKeepsValid(users, villages, k, u);
      SetUsers(users[k := u]);
    }

    /** `user.save()` of a stored user that keeps its role and village and
        does not take another user's email or mobile. */
    method SaveUser(k: string, u: User)
      requires Valid() && k in users && Stored(u)
      requires u.role == users[k].role && u.villageName == users[k].villageName
      requires ContactsFree(users, k, u)
      modifies this`users
      ensures users == old(users)[k := u]
      ensures Valid() && unchanged(this`villages, this`files)
    {
      SaveUserKeepsValid(users, villages, k, u);
      SetUsers(users[k := u]);
    }

    /** `deleteOne()` of a people user; no village refers to one. */
    method DeleteUser(k: string)
      requires Valid() && (k in users ==> users[k].role == People)
      modifies this`users
      ensures users == old(users) - {k}
      ensures Valid() && unchanged(this`villages, this`files)
    {
      DeletePeopleKeepsValid(users, villages, k);
      SetUsers(users - {k});
    }

    /** An empty database with no uploads. */
    constructor ()
      ensures Valid()
      ensures users == map[] && villages == map[] && complaints == map[] && notices == map[]
      ensures jobs == map[] && schemes == map[] && works == map[] && files == {}
    {
      users, villages, complaints, notices := map[], map[], map[], map[];
      jobs, schemes, works, files := map[], map[], map[], {};
    }
  }

  // Each conjunct of the invariant is carried over an update by its own
  // lemma, so that no proof has to see all of them at once.

  lemma UsersStoredPut(users: map<string, User>, k: string, u: User)
    requires UsersStored(users) && Stored(u)
    ensures UsersStored(users[k := u])
  {
    var users' := users[k := u];
    forall x | x in users'
      ensures Stored(users'[x])
    {
      if x != k {
        assert Stored(users[x]);
      }
    }
  }

  lemma ContactsUniquePut(users: map<string, User>, k: string, u: User)
    requires ContactsUnique(users)
    requires ContactsFree(users, k, u)
    ensures ContactsUnique(users[k := u])
  {
  }

  /** A user update that keeps the role and village of a stored user, or
      adds a user under a new key, keeps every village bound. */
  lemma VillagesBoundPut(villages: map<string, V.Village>, users: map<string, User>, k: string, u: User)
    requires VillagesBound(villages, users)
    requires k in users ==> u.role == users[k].role && u.villageName == users[k].villageName
    ensures VillagesBound(villages, users[k := u])
  {
    forall j | j in villages
      ensures BoundTo(users[k := u], villages[j])
    {
      assert BoundTo(users, villages[j]);
    }
  }

  lemma SarpanchesPut(villages: map<string, V.Village>, users: map<string, User>, k: string, u: User)
    requires SarpanchesHaveVillage(villages, users)
    requires u.role == Sarpanch ==> HasVillage(villages, k)
    ensures SarpanchesHaveVillage(villages, users[k := u])
  {
    forall x | x in users[k := u] && users[k := u][x].role == Sarpanch
      ensures HasVillage(villages, x)
    {
      if x != k {
        assert x in users && users[x].role == Sarpanch;
      }
    }
  }

  lemma VillagesBoundRemove(villages: map<string, V.Village>, users: map<string, User>, k: string)
    requires VillagesBound(villages, users)
    requires k in users ==> users[k].role == People
    ensures VillagesBound(villages, users - {k})
  {
    forall j | j in villages
      ensures BoundTo(users - {k}, villages[j])
    {
      assert BoundTo(users, villages[j]);
    }
  }

  lemma SarpanchesRemove(villages: map<string, V.Village>, users: map<string, User>, k: string)
    requires SarpanchesHaveVillage(villages, users)
    ensures SarpanchesHaveVillage(villages, users - {k})
  {
    forall x | x in users - {k} && (users - {k})[x].role == Sarpanch
      ensures HasVillage(villages, x)
    {
      assert x in users;
    }
  }

  /** Adding a people user whose email and mobile are free keeps the
      invariant. */
  lemma AddPeopleKeepsValid(users: map<string, User>, villages: map<string, V.Village>, k: string, u: User)
    requires UsersValid(users) && VillagesValid(villages, users)
    requires IsKey(k) && k !in users && Stored(u) && u.role == People
    requires ContactsFree(users, k, u)
    ensures UsersValid(users[k := u]) && VillagesValid(villages, users[k := u])
  {
    UsersStoredPut(users, k, u);
    ContactsUniquePut(users, k, u);
    VillagesBoundPut(villages, users, k, u);
    SarpanchesPut(villages, users, k, u);
  }

  /** Saving a user with its role and village unchanged and its contacts
      still unique keeps the invariant. */
  lemma SaveUserKeepsValid(users: map<string, User>, villages: map<string, V.Village>, k: string, u: User)
    requires UsersValid(users) && VillagesValid(villages, users)
    requires k in users && Stored(u) && u.role == users[k].role && u.villageName == users[k].villageName
    requires ContactsFree(users, k, u)
    ensures UsersValid(users[k := u]) && VillagesValid(villages, users[k := u])
  {
    UsersStoredPut(users, k, u);
    ContactsUniquePut(users, k, u);
    VillagesBoundPut(villages, users, k, u);
    SarpanchesPut(villages, users, k, u);
  }

  /** Removing a people user keeps the invariant: no village refers to it. */
  lemma DeletePeopleKeepsValid(users: map<string, User>, villages: map<string, V.Village>, k: string)
    requires UsersValid(users) && VillagesValid(villages, users)
    requires k in users ==> users[k].role == People
    ensures UsersValid(users - {k}) && VillagesValid(villages, users - {k})
  {
    VillagesBoundRemove(villages, users, k);
    SarpanchesRemove(villages, users, k);
  }

  lemma VillagesStoredPut(villages: map<string, V.Village>, k: string, v: V.Village)
    requires VillagesStored(villages) && V.Stored(v)
    ensures VillagesStored(villages[k := v])
  {
    var villages' := villages[k := v];
    forall j | j in villages'
      ensures V.Stored(villages'[j])
    {
      if j != k {
        assert V.Stored(villages[j]);
      }
    }
  }

  /** A new village bound to a new sarpanch user. */
  lemma VillagesBoundAdd(villages: map<string, V.Village>, users: map<string, User>,
                         uid: string, u: User, vid: string, v: V.Village)
    requires VillagesBound(villages, users) && uid !in users && u.role == Sarpanch
    requires v.sarpanchId == uid && v.name == LowerTrimmed(u.villageName)
    ensures VillagesBound(villages[vid := v], users[uid := u])
  {
    VillagesBoundPut(villages, users, uid, u);
    var villages' := villages[vid := v];
    forall j | j in villages'
      ensures BoundTo(users[uid := u], villages'[j])
    {
      if j != vid {
        assert BoundTo(users[uid := u], villages[j]);
      }
    }
  }

  lemma VillagesUniqueAdd(villages: map<string, V.Village>, users: map<string, User>, vid: string, v: V.Village)
    requires VillagesUnique(villages) && VillagesBound(villages, users)
    requires v.sarpanchId !in users
    requires forall j :: j in villages ==> villages[j].name != v.name
    ensures VillagesUnique(villages[vid := v])
  {
    var villages' := villages[vid := v];
    forall a, b | a in villages' && b in villages' && a != b
      ensures villages'[a].name != villages'[b].name && villages'[a].sarpanchId != villages'[b].sarpanchId
    {
      if a == vid {
        assert BoundTo(users, villages[b]);
      } else if b == vid {
        assert BoundTo(users, villages[a]);
      } else {
        assert villages'[a] == villages[a] && villages'[b] == villages[b];
      }
    }
  }

  lemma SarpanchesAdd(villages: map<string, V.Village>, users: map<string, User>,
                      uid: string, u: User, vid: string, v: V.Village)
    requires SarpanchesHaveVillage(villages, users) && vid !in villages && v.sarpanchId == uid
    ensures SarpanchesHaveVillage(villages[vid := v], users[uid := u])
  {
    var villages' := villages[vid := v];
    forall x | x in users[uid := u] && users[uid := u][x].role == Sarpanch
      ensures HasVillage(villages', x)
    {
      if x == uid {
        assert villages'[vid].sarpanchId == x;
      } else {
        assert x in users && users[x].role == Sarpanch;
        var w :| w in villages && villages[w].sarpanchId == x;
        assert villages'[w].sarpanchId == x;
      }
    }
  }

  /** Registering a sarpanch together with a village of a new name, bound
      to the new user, keeps the invariant. */
  lemma RegisterSarpanchKeepsValid(users: map<string, User>, villages: map<string, V.Village>,
                                   uid: string, u: User, vid: string, v: V.Village)
    requires UsersValid(users) && VillagesValid(villages, users)
    requires IsKey(uid) && uid !in users && Stored(u) && u.role == Sarpanch
    requires ContactsFree(users, uid, u)
    requires IsKey(vid) && vid !in villages && V.Stored(v)
    requires v.sarpanchId == uid && v.name == LowerTrimmed(u.villageName)
    requires forall j :: j in villages ==> villages[j].name != v.name
    ensures UsersValid(users[uid := u]) && VillagesValid(villages[vid := v], users[uid := u])
  {
    UsersStoredPut(users, uid, u);
    ContactsUniquePut(users, uid, u);
    VillagesStoredPut(villages, vid, v);
    VillagesBoundAdd(villages, users, uid, u, vid, v);
    VillagesUniqueAdd(villages, users, vid, v);
    SarpanchesAdd(villages, users, uid, u, vid, v);
  }

  /** A user saved with its own email and mobile keeps them free. */
  lemma SameContactsFree(users: map<string, User>, k: string, u: User)
    requires UsersValid(users) && k in users
    requires u.email == users[k].email && u.mobile == users[k].mobile
    ensures ContactsFree(users, k, u)
  {
  }

  /** A user's key is found from its email: at most one stored user has it. */
  lemma EmailIdentifiesUser(users: map<string, User>, a: string, b: string)
    requires UsersValid(users) && a in users && b in users
    requires users[a].email == users[b].email
    ensures a == b
  {
  }

  /** Each village name is bound to exactly one sarpanch, and each sarpanch
      to exactly one village. */
  lemma {:induction false} OneVillagePerSarpanch(villages: map<string, V.Village>, users: map<string, User>,
                                                 u: string)
    requires VillagesValid(villages, users) && u in users && users[u].role == Sarpanch
    ensures exists k :: k in villages && villages[k].sarpanchId == u
                        && forall k2 :: k2 in villages && villages[k2].sarpanchId == u ==> k2 == k
  {
    assert HasVillage(villages, u);
    var k :| k in villages && villages[k].sarpanchId == u;
    assert forall k2 :: k2 in villages && villages[k2].sarpanchId == u ==> k2 == k;
  }
}
