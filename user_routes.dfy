/**
 * The profile partial-update handler. Only the profile's owner may update
 * it; name and context are overwritten only by a truthy value, bio and
 * photo whenever they are present, and the credentials never.
 */
module UserRoutes {
  import opened Outcomes
  import opened Models
  import opened Store

  /** The request body: each field is None when the body omits it. */
  datatype ProfileRequest = ProfileRequest(
    name: Option<string>,
    context: Option<string>,
    bio: Option<string>,
    photo: Option<string>)

  /** A string field is truthy when present and not empty. */
  predicate Truthy(v: Option<string>)
  {
    v.Some? && v.value != ""
  }

  /** The fields the handler writes; a field absent here is left as stored. */
  datatype UpdateData = UpdateData(
    name: Option<string>,
    context: Option<string>,
    bio: Option<string>,
    photo: Option<string>)

  /** Writes the fields an update carries over a stored user. */
  function Apply(u: User, data: UpdateData): (r: User)
    ensures r.id == u.id && r.email == u.email && r.password == u.password && r.googleId == u.googleId
  {
    u.(name := if data.name.Some? then data.name.value else u.name,
       context := if data.context.Some? then data.context.value else u.context,
       bio := if data.bio.Some? then data.bio else u.bio,
       photo := if data.photo.Some? then data.photo else u.photo)
  }

  /**
   * The merge rule, field by field: the profile a request leaves behind.
   * The credentials and the identity are never touched, and a record that
   * satisfied the schema still does.
   */
  function Merge(u: User, req: ProfileRequest): (r: User)
    ensures r.id == u.id && r.email == u.email && r.password == u.password && r.googleId == u.googleId
    ensures r.name == (if Truthy(req.name) then req.name.value else u.name)
    ensures r.context == (if Truthy(req.context) then req.context.value else u.context)
    ensures r.bio == (if req.bio.Some? then req.bio else u.bio)
    ensures r.photo == (if req.photo.Some? then req.photo else u.photo)
    ensures UserSchemaValid(u) ==> UserSchemaValid(r)
  {
    User(u.id, u.email, u.password,
         if Truthy(req.name) then req.name.value else u.name,
         if Truthy(req.context) then req.context.value else u.context,
         if req.bio.Some? then req.bio else u.bio,
         if req.photo.Some? then req.photo else u.photo,
         u.googleId)
  }

  /** Applying the same request twice leaves the same profile as applying it once. */
  lemma MergeIdempotent(u: User, req: ProfileRequest)
    ensures Merge(Merge(u, req), req) == Merge(u, req)
  {
  }

  /** An empty name in the request never erases the stored one. */
  lemma EmptyNameKeepsName(u: User, req: ProfileRequest)
    requires req.name == Some("")
    ensures Merge(u, req).name == u.name
  {
  }

  /** An empty context in the request never erases the stored one. */
  lemma EmptyContextKeepsContext(u: User, req: ProfileRequest)
    requires req.context == Some("")
    ensures Merge(u, req).context == u.context
  {
  }

  /** An empty bio in the request is written, clearing the stored bio. */
  lemma EmptyBioClearsBio(u: User, req: ProfileRequest)
    requires req.bio == Some("")
    ensures Merge(u, req).bio == Some("")
  {
  }

  /** An empty photo in the request is written, clearing the stored photo. */
  lemma EmptyPhotoClearsPhoto(u: User, req: ProfileRequest)
    requires req.photo == Some("")
    ensures Merge(u, req).photo == Some("")
  {
  }

  /**
   * PATCH a profile. A requester other than the profile's owner is refused
   * before any lookup; an unknown id is 404; otherwise the stored user is
   * replaced by the merge and nothing else in the store changes.
   */
  method UpdateProfile(db: Db, requester: Id, id: Id, req: ProfileRequest) returns (r: Result<User>)
    requires db.Valid()
    modifies db
    ensures db.Valid()
    ensures r == Err(NotOwnProfile) <==> requester != id
    ensures r == Err(UserNotFound) <==> requester == id && id !in old(db.users)
    ensures r.Ok? <==> requester == id && id in old(db.users)
    ensures r.Err? ==> unchanged(db)
    ensures r.Ok? ==> && id in old(db.users)
                      && r.value == Merge(old(db.users)[id], req)
                      && db.users == old(db.users)[id := r.value]
    ensures r.Ok? ==> db.sobremesas == old(db.sobremesas) && db.cartas == old(db.cartas)
                      && db.ledger == old(db.ledger) && db.nextId == old(db.nextId)
  {
    if requester != id {
      return Err(NotOwnProfile);
    }
    var name: Option<string> := None;
    var context: Option<string> := None;
    var bio: Option<string> := None;
    var photo: Option<string> := None;
    if Truthy(req.name) {
      name := req.name;
    }
    if Truthy(req.context) {
      context := req.context;
    }
    if req.bio.Some? {
      bio := req.bio;
    }
    if req.photo.Some? {
      photo := req.photo;
    }
    var data := UpdateData(name, context, bio, photo);
    if id !in db.users {
      return Err(UserNotFound);
    }
    var updated := Apply(db.users[id], data);
    db.users := db.users[id := updated];
    return Ok(updated);
  }
}
