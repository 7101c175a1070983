/** The user and phone stores the service, the authentication filter and the
    seeder share. A user's id is its position in the store, standing for the
    UUID the persistence layer generates. */
module Repositories {
  import opened Wrappers
  import opened Entities

  /** The store's invariant: ids are positions and the email column is unique. */
  predicate WellFormed(users: seq<User>) {
    && (forall i :: 0 <= i < |users| ==> users[i].id == i)
    && UniqueEmails(users)
  }

  predicate UniqueEmails(users: seq<User>) {
    forall i, j :: 0 <= i < j < |users| ==> users[i].email != users[j].email
  }

  /** `findByEmail`: the stored user with that email, if there is one. */
  function FindByEmail(users: seq<User>, email: string): (r: Option<User>)
    ensures r.Some? ==> r.value in users && r.value.email == email
    ensures r.None? <==> forall u :: u in users ==> u.email != email
    decreases |users|
  {
    if users == [] then None
    else if users[0].email == email then Some(users[0])
    else FindByEmail(users[1..], email)
  }

  /** In a well-formed store, looking up a stored user's email finds that user. */
  lemma FindByEmailFindsStored(users: seq<User>, i: nat)
    requires WellFormed(users) && i < |users|
    ensures FindByEmail(users, users[i].email) == Some(users[i])
  {
    var r := FindByEmail(users, users[i].email);
    var j :| 0 <= j < |users| && users[j] == r.value;
    assert !(j < i) && !(i < j);
  }

  /** `findById`: the stored user with that id, if there is one. */
  function FindById(users: seq<User>, id: nat): (r: Option<User>)
    requires WellFormed(users)
    ensures r.Some? ==> r.value in users && r.value.id == id
    ensures r.None? <==> forall u :: u in users ==> u.id != id
  {
    if id < |users| then Some(users[id]) else None
  }

  /** Appending a user with a new email and the next id keeps the store well formed. */
  lemma AppendPreservesWellFormed(users: seq<User>, u: User)
    requires WellFormed(users)
    requires FindByEmail(users, u.email).None? && u.id == |users|
    ensures WellFormed(users + [u])
  {
    var s := users + [u];
    forall i, j | 0 <= i < j < |s| ensures s[i].email != s[j].email {
      if j == |users| {
        assert s[i] in users;
      }
    }
  }

  /** Replacing a user by one with the same id and email keeps the store well formed. */
  lemma ReplacePreservesWellFormed(users: seq<User>, u: User)
    requires WellFormed(users) && u.id < |users| && u.email == users[u.id].email
    ensures WellFormed(users[u.id := u])
  {
  }

  class UserRepository {
    var users: seq<User>

    predicate Valid()
      reads this
    {
      WellFormed(users)
    }

    constructor ()
      ensures Valid() && users == []
    {
      users := [];
    }

    /** `save` of a new entity: the store assigns the next id. The unique
        email column rejects a duplicate, and then nothing is stored. */
    method Insert(u: User) returns (saved: Option<User>)
      requires Valid()
      modifies this
      ensures Valid()
      ensures FindByEmail(old(users), u.email).Some? ==> saved == None && users == old(users)
      ensures FindByEmail(old(users), u.email).None? ==>
                saved == Some(u.(id := |old(users)|)) && users == old(users) + [saved.value]
    {
      if FindByEmail(users, u.email).Some? {
        saved := None;
      } else {
        var stored := u.(id := |users|);
        AppendPreservesWellFormed(users, stored);
        users := users + [stored];
        saved := Some(stored);
      }
    }

    /** `save` of an entity loaded from the store, with its email unchanged. */
    method Update(u: User)
      requires Valid() && u.id < |users| && u.email == users[u.id].email
      modifies this
      ensures Valid()
      ensures users == old(users)[u.id := u]
    {
      ReplacePreservesWellFormed(users, u);
      users := users[u.id := u];
    }
  }

  class PhoneRepository {
    var phones: seq<Phone>

    constructor ()
      ensures phones == []
    {
      phones := [];
    }

    /** `saveAll`: stores the phones in order. */
    method SaveAll(batch: seq<Phone>)
      modifies this
      ensures phones == old(phones) + batch
    {
      phones := phones + batch;
    }
  }
}
