/**
 * The link handlers of src/routes/url.js as methods on the `urls` table:
 * `POST /short` (Shorten), `GET /urls` (List), `PUT /urls/:id` (Update),
 * `DELETE /urls/:id` (Delete) and `GET /:short_url` (Resolve).
 *
 * The caller id that the `authenticate` middleware attaches to the request,
 * the code `nanoid(6)` draws and the time `new Date()` reads are inputs.
 * `validateUrl` (a WHATWG URL parse) and `BASE_URL` are fixed when the
 * table is created. The `user_id` foreign key is checked against the ids of
 * the user registry, `Auth.UserTable`.
 */
module UrlRoutes {
  import opened Common
  import opened UrlModel
  import opened Auth

  /** The foreign key between the two tables: every owned link names a
      registered user. */
  ghost predicate OwnersRegistered(links: LinkTable, accounts: UserTable)
    reads links, accounts
  {
    OwnersKnown(links.rows, UserIds(accounts.users))
  }

  class LinkTable {
    /** `validateUrl`: whether `new URL(s)` parses. */
    const validUrl: string -> bool
    /** `process.env.BASE_URL`. */
    const baseUrl: string

    /** The rows of `urls`, in insertion order. */
    var rows: seq<Link>
    /** The value the auto-increment primary key hands out next. */
    var nextId: int

    /** The table invariant, plus what the handlers guarantee of every row
        they write: its URL passed validateUrl and its code is a nanoid code. */
    ghost predicate Valid()
      reads this
    {
      && TableValid(rows, nextId)
      && (forall i :: 0 <= i < |rows| ==> validUrl(rows[i].originalUrl) && IsShortCode(rows[i].shortUrl))
    }

    constructor (validUrl: string -> bool, baseUrl: string)
      ensures Valid()
      ensures this.validUrl == validUrl && this.baseUrl == baseUrl
      ensures rows == [] && nextId == 1
    {
      this.validUrl := validUrl;
      this.baseUrl := baseUrl;
      rows := [];
      nextId := 1;
    }

    /** `POST /short`. The body's `original_url` must be present and
        non-empty, then parse as a URL. The insert fails, and nothing is
        stored, when the code is already taken by any row (deleted or not) or
        the owner is not a registered user. */
    method Shorten(originalUrl: Option<string>, caller: Option<int>, code: ShortCode, accounts: UserTable, now: Time)
      returns (r: Response<string>)
      requires Valid()
      modifies this
      ensures Valid()
      ensures !Required(originalUrl) ==> r == BadRequest(SchemaError)
      ensures Required(originalUrl) && !validUrl(originalUrl.value) ==> r == BadRequest(InvalidUrl)
      ensures Required(originalUrl) && validUrl(originalUrl.value) &&
              (CodeInUse(old(rows), code) || !OwnerKnown(Owner(caller), UserIds(accounts.users))) ==>
                r == BadRequest(ConstraintViolation)
      ensures r.Ok? <==> Required(originalUrl) && validUrl(originalUrl.value) &&
                         !CodeInUse(old(rows), code) && OwnerKnown(Owner(caller), UserIds(accounts.users))
      ensures r.Ok? ==> r.value == baseUrl + "/" + code
      ensures r.Ok? ==> rows == old(rows) + [NewLink(old(nextId), originalUrl.value, code, Owner(caller), now)]
      ensures r.Ok? ==> nextId == old(nextId) + 1
      ensures !r.Ok? ==> rows == old(rows) && nextId == old(nextId)
      ensures old(OwnersRegistered(this, accounts)) ==> OwnersRegistered(this, accounts)
    {
      if !Required(originalUrl) {
        return BadRequest(SchemaError);
      }
      var url := originalUrl.value;
      if !validUrl(url) {
        return BadRequest(InvalidUrl);
      }
      var owner := Owner(caller);
      var userIds := UserIds(accounts.users);
      if CodeInUse(rows, code) || !OwnerKnown(owner, userIds) {
        return BadRequest(ConstraintViolation);
      }
      var link := NewLink(nextId, url, code, owner, now);
      ShortenEffect(rows, nextId, url, code, owner, now, 0);
      if OwnersKnown(rows, userIds) {
        ShortenKeepsOwnersKnown(rows, nextId, url, code, owner, now, userIds);
      }
      assert forall i :: 0 <= i < |rows + [link]| ==>
        validUrl((rows + [link])[i].originalUrl) && IsShortCode((rows + [link])[i].shortUrl);
      rows := rows + [link];
      nextId := nextId + 1;
      r := Ok(baseUrl + "/" + code);
    }

    /** `POST /short` as the router mounts it: without the `authenticate`
        middleware, so `req.user` is never set and the link is stored with
        no owner. */
    method ShortenAsRouted(originalUrl: Option<string>, code: ShortCode, accounts: UserTable, now: Time)
      returns (r: Response<string>)
      requires Valid()
      modifies this
      ensures Valid()
      ensures !Required(originalUrl) ==> r == BadRequest(SchemaError)
      ensures Required(originalUrl) && !validUrl(originalUrl.value) ==> r == BadRequest(InvalidUrl)
      ensures Required(originalUrl) && validUrl(originalUrl.value) && CodeInUse(old(rows), code) ==>
                r == BadRequest(ConstraintViolation)
      ensures r.Ok? <==> Required(originalUrl) && validUrl(originalUrl.value) && !CodeInUse(old(rows), code)
      ensures r.Ok? ==> r.value == baseUrl + "/" + code
      ensures r.Ok? ==> rows == old(rows) + [NewLink(old(nextId), originalUrl.value, code, None, now)]
      ensures r.Ok? ==> nextId == old(nextId) + 1
      ensures !r.Ok? ==> rows == old(rows) && nextId == old(nextId)
      ensures old(OwnersRegistered(this, accounts)) ==> OwnersRegistered(this, accounts)
    {
      r := Shorten(originalUrl, None, code, accounts, now);
    }

    /** `GET /urls`: the caller's live links, without user_id and deleted_at. */
    method List(caller: int) returns (r: seq<LinkView>)
      ensures r == Visible(rows, caller)
    {
      r := Visible(rows, caller);
    }

    /** `PUT /urls/:id`. The URL is checked before the lookup, so an invalid
        URL is a 400 whatever the id; then only a live row of the caller's
        with that id is changed, and only its URL and update time. */
    method Update(caller: int, id: int, originalUrl: Option<string>, now: Time) returns (r: Response<Message>)
      requires Valid()
      modifies this
      ensures Valid()
      ensures nextId == old(nextId)
      ensures forall userIds :: OwnersKnown(old(rows), userIds) ==> OwnersKnown(rows, userIds)
      ensures !Required(originalUrl) ==> r == BadRequest(SchemaError) && rows == old(rows)
      ensures Required(originalUrl) && !validUrl(originalUrl.value) ==> r == BadRequest(InvalidUrl) && rows == old(rows)
      ensures Required(originalUrl) && validUrl(originalUrl.value) ==>
        match Find(old(rows), ById(id, caller))
        case None => r == NotFound(UrlNotFound) && rows == old(rows)
        case Some(i) => r == Ok(UrlUpdated) && rows == Retargeted(old(rows), i, originalUrl.value, now)
    {
      if !Required(originalUrl) {
        return BadRequest(SchemaError);
      }
      var url := originalUrl.value;
      if !validUrl(url) {
        return BadRequest(InvalidUrl);
      }
      var found := Find(rows, ById(id, caller));
      if found.None? {
        return NotFound(UrlNotFound);
      }
      var i := found.value;
      UpdateEffect(rows, nextId, i, url, now, ById(id, caller));
      rows := rows[i := rows[i].(originalUrl := url, updatedAt := now)];
      r := Ok(UrlUpdated);
    }

    /** `DELETE /urls/:id`: stamps deleted_at on a live row of the caller's
        with that id; the row stays in the table. */
    method Delete(caller: int, id: int, now: Time) returns (r: Response<Message>)
      requires Valid()
      modifies this
      ensures Valid()
      ensures nextId == old(nextId)
      ensures forall userIds :: OwnersKnown(old(rows), userIds) ==> OwnersKnown(rows, userIds)
      ensures match Find(old(rows), ById(id, caller))
        case None => r == NotFound(UrlNotFound) && rows == old(rows)
        case Some(i) => r == Ok(UrlDeleted) && rows == SoftDeleted(old(rows), i, now)
    {
      var found := Find(rows, ById(id, caller));
      if found.None? {
        return NotFound(UrlNotFound);
      }
      var i := found.value;
      DeleteEffect(rows, nextId, i, now, caller);
      rows := rows[i := rows[i].(deletedAt := Some(now))];
      r := Ok(UrlDeleted);
    }

    /** `GET /:short_url`: counts a click on the live row with that code and
        redirects to its URL. */
    method Resolve(code: string) returns (r: Response<string>)
      requires Valid()
      modifies this
      ensures Valid()
      ensures nextId == old(nextId)
      ensures forall userIds :: OwnersKnown(old(rows), userIds) ==> OwnersKnown(rows, userIds)
      ensures match Find(old(rows), ByCode(code))
        case None => r == NotFound(UrlNotFound) && rows == old(rows)
        case Some(i) => r == Redirect(old(rows)[i].originalUrl) && rows == Clicked(old(rows), i)
    {
      var found := Find(rows, ByCode(code));
      if found.None? {
        return NotFound(UrlNotFound);
      }
      var i := found.value;
      ResolveEffect(rows, nextId, i, ByCode(code));
      var row := rows[i];
      rows := Clicked(rows, i);
      r := Redirect(row.originalUrl);
    }
  }
}
