/** KYB tables and the submission of a KYB profile in one transaction. */
module KybSubmission {
  import opened Wrappers

  type UserId = string
  type ProfileId = string

  datatype Status = NotStarted | Pending | Approved | Rejected

  datatype User = User(email: string, status: Status)

  datatype Papers = Papers(
    mobileNumber: string, companyName: string, address: string, certificateUrl: string, articlesUrl: string,
    proofOfAddressUrl: string, licenseUrl: Option<string>, amlUrl: string, kycUrl: Option<string>)

  datatype Profile = Profile(user: Option<UserId>, papers: Papers, rejectionComment: Option<string>)

  datatype OwnerDetails = OwnerDetails(
    fullName: string, address: string, proofOfAddressUrl: string, idUrl: string, idType: string,
    dateOfBirth: string, share: real)

  datatype Owner = Owner(profile: ProfileId, details: OwnerDetails)

  datatype Db = Db(users: map<UserId, User>, profiles: map<ProfileId, Profile>, owners: seq<Owner>) {

    /** The one-to-one edge between users and profiles, unique emails, and owners that refer to profiles. */
    ghost predicate Valid() {
      && (forall p, p' :: p in profiles && p' in profiles && p != p' && profiles[p].user.Some? ==>
            profiles[p'].user != profiles[p].user)
      && (forall p :: p in profiles && profiles[p].user.Some? ==> profiles[p].user.value in users)
      && (forall u, u' :: u in users && u' in users && u != u' ==> users[u].email != users[u'].email)
      && (forall i :: 0 <= i < |owners| ==> owners[i].profile in profiles)
    }

    /** The profiles of a user. */
    function ProfilesOf(u: UserId): set<ProfileId> {
      set p | p in profiles && profiles[p].user == Some(u)
    }
  }

  /** The request body. */
  datatype Input = Input(
    mobileNumber: string, companyName: string, address: string, certificateUrl: string, articlesUrl: string,
    proofOfAddressUrl: string, licenseUrl: Option<string>, amlUrl: Option<string>, kycUrl: Option<string>,
    owners: seq<OwnerDetails>)

  function PapersOf(i: Input): Papers {
    Papers(i.mobileNumber, i.companyName, i.address, i.certificateUrl, i.articlesUrl, i.proofOfAddressUrl,
           i.licenseUrl, if i.amlUrl.Some? then i.amlUrl.value else "", i.kycUrl)
  }

  // ----- The owners table -----

  function OwnersOf(owners: seq<Owner>, p: ProfileId): seq<OwnerDetails> {
    if owners == [] then []
    else
      var last := owners[|owners| - 1];
      OwnersOf(owners[..|owners| - 1], p) + (if last.profile == p then [last.details] else [])
  }

  function Without(owners: seq<Owner>, p: ProfileId): seq<Owner> {
    if owners == [] then []
    else
      var last := owners[|owners| - 1];
      Without(owners[..|owners| - 1], p) + (if last.profile == p then [] else [last])
  }

  function Owned(p: ProfileId, details: seq<OwnerDetails>): seq<Owner> {
    seq(|details|, i requires 0 <= i < |details| => Owner(p, details[i]))
  }

  // ----- The intended effect -----

  /** The tables after `u` submitted `i` as profile `p`; an existing profile keeps its identifier and
      its rejection comment. */
  function Submitted(db: Db, u: UserId, i: Input, p: ProfileId): Db
    requires u in db.users
  {
    Db(db.users[u := db.users[u].(status := Pending)],
       db.profiles[p := Profile(Some(u), PapersOf(i),
                                if p in db.profiles then db.profiles[p].rejectionComment else None)],
       Without(db.owners, p) + Owned(p, i.owners))
  }

  /** What a committed submission leaves in the tables, field by field. */
  ghost predicate Filed(db: Db, db': Db, u: UserId, i: Input, p: ProfileId) {
    && p in db'.profiles && FiledPapers(db'.profiles[p].papers, i)
    && db'.profiles[p].user == Some(u)
    && db'.profiles[p].rejectionComment == (if p in db.profiles then db.profiles[p].rejectionComment else None)
    && (forall q :: q != p ==> (q in db'.profiles <==> q in db.profiles))
    && (forall q :: q != p && q in db.profiles ==> db'.profiles[q] == db.profiles[q])
    && u in db.users && u in db'.users
    && db'.users[u].status == Pending && db'.users[u].email == db.users[u].email
    && (forall v :: v != u ==> (v in db'.users <==> v in db.users))
    && (forall v :: v != u && v in db.users ==> db'.users[v] == db.users[v])
    && OwnersOf(db'.owners, p) == i.owners
    && (forall q :: q != p ==> OwnersOf(db'.owners, q) == OwnersOf(db.owners, q))
  }

  /** Every field of the input is stored under its own name; an absent AML policy is stored as an empty
      text, an absent licence or KYC policy is cleared. */
  ghost predicate FiledPapers(s: Papers, i: Input) {
    && s.mobileNumber == i.mobileNumber && s.companyName == i.companyName && s.address == i.address
    && s.certificateUrl == i.certificateUrl && s.articlesUrl == i.articlesUrl
    && s.proofOfAddressUrl == i.proofOfAddressUrl
    && s.licenseUrl == i.licenseUrl && s.kycUrl == i.kycUrl
    && (i.amlUrl.Some? ==> s.amlUrl == i.amlUrl.value) && (i.amlUrl.None? ==> s.amlUrl == "")
  }

  lemma SubmittedFiled(db: Db, u: UserId, i: Input, p: ProfileId)
    requires u in db.users
    ensures Filed(db, Submitted(db, u, i, p), u, i, p)
  {
    forall q ensures OwnersOf(Submitted(db, u, i, p).owners, q) == if q == p then i.owners else OwnersOf(db.owners, q) {
      SubmittedOwners(db, u, i, p, q);
    }
    hide OwnersOf, Without, Owned;
  }

  /** The profile is the user's only one or new. */
  ghost predicate TargetFor(db: Db, u: UserId, p: ProfileId) {
    && (p in db.profiles ==> db.profiles[p].user == Some(u))
    && (forall q :: q in db.profiles && db.profiles[q].user == Some(u) ==> q == p)
  }

  /** The tables stay valid: in particular no user ever has two profiles. */
  lemma SubmittedValid(db: Db, u: UserId, i: Input, p: ProfileId)
    requires db.Valid() && u in db.users && TargetFor(db, u, p)
    ensures Submitted(db, u, i, p).Valid()
  {
    var d := Submitted(db, u, i, p);
    KeptOwnersRefer(db.owners, p);
    forall k | 0 <= k < |d.owners| ensures d.owners[k].profile in d.profiles {
      if k < |Without(db.owners, p)| { assert d.owners[k] in Without(db.owners, p); }
    }
  }

  /** Exactly the input's owners take the place of the old ones; nobody else's owners change. */
  lemma SubmittedOwners(db: Db, u: UserId, i: Input, p: ProfileId, q: ProfileId)
    requires u in db.users
    ensures OwnersOf(Submitted(db, u, i, p).owners, q) == if q == p then i.owners else OwnersOf(db.owners, q)
  {
    OwnersConcat(Without(db.owners, p), Owned(p, i.owners), q);
    OwnersKept(db.owners, p, q);
    OwnersAdded(p, i.owners, q);
  }

  lemma {:induction false} OwnersConcat(a: seq<Owner>, b: seq<Owner>, q: ProfileId)
    ensures OwnersOf(a + b, q) == OwnersOf(a, q) + OwnersOf(b, q)
  {
    if b == [] {
      assert a + b == a;
    } else {
      OwnersConcat(a, b[..|b| - 1], q);
      assert (a + b)[..|a + b| - 1] == a + b[..|b| - 1];
    }
  }

  lemma {:induction false} OwnersKept(owners: seq<Owner>, p: ProfileId, q: ProfileId)
    ensures OwnersOf(Without(owners, p), q) == if q == p then [] else OwnersOf(owners, q)
  {
    if owners != [] {
      var front, last := owners[..|owners| - 1], owners[|owners| - 1];
      OwnersKept(front, p, q);
      OwnersConcat(Without(front, p), if last.profile == p then [] else [last], q);
      assert OwnersOf([last], q) == OwnersOf([], q) + (if last.profile == q then [last.details] else []);
    }
  }

  lemma {:induction false} OwnersAdded(p: ProfileId, details: seq<OwnerDetails>, q: ProfileId)
    ensures OwnersOf(Owned(p, details), q) == if q == p then details else []
  {
    if details != [] {
      var n := |details| - 1;
      OwnersAdded(p, details[..n], q);
      assert Owned(p, details)[..n] == Owned(p, details[..n]);
      assert details == details[..n] + [details[n]];
    }
  }

  lemma {:induction false} KeptOwnersRefer(owners: seq<Owner>, p: ProfileId)
    ensures forall o :: o in Without(owners, p) ==> o in owners && o.profile != p
  {
    if owners != [] {
      var front := owners[..|owners| - 1];
      KeptOwnersRefer(front, p);
      assert owners == front + [owners[|owners| - 1]];
    }
  }

  lemma {:induction false} NothingToRemove(owners: seq<Owner>, p: ProfileId)
    requires forall i :: 0 <= i < |owners| ==> owners[i].profile != p
    ensures Without(owners, p) == owners
  {
    if owners != [] {
      NothingToRemove(owners[..|owners| - 1], p);
      assert owners == owners[..|owners| - 1] + [owners[|owners| - 1]];
    }
  }

  // ----- The handler -----

  /** The calls that may fail for reasons outside the tables. */
  datatype Call =
    | QueryUser | QueryProfile | Begin | SaveProfile | DeleteOwners | SaveOwner(n: nat) | SetStatus | Commit | Notify

  datatype Response = Created(profile: ProfileId) | Unauthorized | UserNotFound | Conflict | ServerError

  class KybController {
    var db: Db

    constructor (db: Db)
      ensures this.db == db
    {
      this.db := db;
    }

    /** `HandleKYBSubmission`.  `ok` says which calls succeed, `newId` is the identifier a new profile
        would get.  All or nothing: the tables are unchanged, or hold the whole submission; they do
        exactly if the user may submit and every call up to the commit succeeded. */
    method HandleKYBSubmission(uid: Option<UserId>, input: Input, newId: ProfileId, ok: Call -> bool)
      returns (r: Response)
      requires db.Valid() && newId !in db.profiles
      modifies this
      ensures db.Valid()
      ensures if MayCommit(old(db), uid, input, ok)
              then db == Submitted(old(db), uid.value, input, TargetOf(old(db), uid.value, newId))
              else db == old(db)
      ensures MayCommit(old(db), uid, input, ok) ==>
                Filed(old(db), db, uid.value, input, TargetOf(old(db), uid.value, newId))
      ensures r.Created? <==> MayCommit(old(db), uid, input, ok) && ok(Notify)
      ensures r.Created? ==> r.profile == TargetOf(old(db), uid.value, newId)
      ensures r == Unauthorized <==> uid.None?
      ensures r == UserNotFound <==> uid.Some? && ok(QueryUser) && uid.value !in old(db).users
      ensures r == Conflict <==>
                && uid.Some? && uid.value in old(db).users && ok(QueryUser) && ok(QueryProfile)
                && !MaySubmit(old(db), uid)
    {
      if uid.None? { return Unauthorized; }
      var u := uid.value;
      if !ok(QueryUser) { return ServerError; }
      if u !in db.users { return UserNotFound; }
      if !ok(QueryProfile) { return ServerError; }
      var existing := db.ProfilesOf(u);
      if existing != {} && db.users[u].status in {Pending, Approved} { return Conflict; }
      if !ok(Begin) { return ServerError; }
      var p := newId;
      if existing != {} { p :| p in existing; }
      assert p == TargetOf(db, u, newId) && TargetFor(db, u, p) by { OneProfileEach(db, u, p); }
      SubmittedValid(db, u, input, p);
      SubmittedFiled(db, u, input, p);
      hide Filed;
      var tx := Transaction(db, u, input, p, ok);
      if tx.None? || !ok(Commit) { return ServerError; }
      db := tx.value;
      r := if ok(Notify) then Created(p) else ServerError;
    }
  }

  /** Everything between the start of the transaction and its commit; a failed call rolls it back. */
  method Transaction(db: Db, u: UserId, input: Input, p: ProfileId, ok: Call -> bool) returns (r: Option<Db>)
    requires u in db.users && forall i :: 0 <= i < |db.owners| ==> db.owners[i].profile in db.profiles
    ensures r.Some? <==>
              && ok(SaveProfile) && (p in db.profiles ==> ok(DeleteOwners))
              && (forall n :: 0 <= n < |input.owners| ==> ok(SaveOwner(n))) && ok(SetStatus)
    ensures r.Some? ==> r.value == Submitted(db, u, input, p)
    ensures r.Some? ==> Filed(db, r.value, u, input, p)
  {
    hide Filed, Without;
    if !ok(SaveProfile) { return None; }
    var comment := if p in db.profiles then db.profiles[p].rejectionComment else None;
    var tx := db.(profiles := db.profiles[p := Profile(Some(u), PapersOf(input), comment)]);
    if p in db.profiles {
      if !ok(DeleteOwners) { return None; }
      tx := tx.(owners := Without(tx.owners, p));
    } else {
      NothingToRemove(db.owners, p);
    }
    ghost var start := tx;
    for n := 0 to |input.owners|
      invariant tx == start.(owners := start.owners + Owned(p, input.owners)[..n])
      invariant forall k :: 0 <= k < n ==> ok(SaveOwner(k))
    {
      if !ok(SaveOwner(n)) { return None; }
      tx := tx.(owners := tx.owners + [Owner(p, input.owners[n])]);
      assert Owned(p, input.owners)[..n + 1] == Owned(p, input.owners)[..n] + [Owner(p, input.owners[n])];
    }
    assert Owned(p, input.owners)[..|input.owners|] == Owned(p, input.owners);
    if !ok(SetStatus) { return None; }
    SubmittedFiled(db, u, input, p);
    r := Some(tx.(users := tx.users[u := tx.users[u].(status := Pending)]));
  }

  /** The user exists and has no profile that is pending or approved. */
  ghost predicate MaySubmit(db: Db, uid: Option<UserId>) {
    && uid.Some? && uid.value in db.users
    && (db.ProfilesOf(uid.value) == {} || db.users[uid.value].status !in {Pending, Approved})
  }

  /** Every call on the way to the commit succeeds. */
  ghost predicate MayCommit(db: Db, uid: Option<UserId>, input: Input, ok: Call -> bool) {
    && MaySubmit(db, uid)
    && ok(QueryUser) && ok(QueryProfile) && ok(Begin) && ok(SaveProfile)
    && (db.ProfilesOf(uid.value) != {} ==> ok(DeleteOwners))
    && (forall n :: 0 <= n < |input.owners| ==> ok(SaveOwner(n)))
    && ok(SetStatus) && ok(Commit)
  }

  /** The profile a submission of `u` goes to: the one there is, or a new one. */
  ghost function TargetOf(db: Db, u: UserId, newId: ProfileId): ProfileId {
    if db.ProfilesOf(u) == {} then newId else var p :| p in db.ProfilesOf(u); p
  }

  lemma OneProfileEach(db: Db, u: UserId, p: ProfileId)
    requires db.Valid()
    requires if db.ProfilesOf(u) == {} then p !in db.profiles else p in db.ProfilesOf(u)
    ensures TargetFor(db, u, p)
    ensures forall q :: q in db.ProfilesOf(u) ==> q == p
  {
    forall q | q in db.profiles && db.profiles[q].user == Some(u) ensures q == p {
      assert q in db.ProfilesOf(u);
    }
  }
}
