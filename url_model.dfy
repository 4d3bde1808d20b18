/**
 * The `urls` table (src/models/Url.js): the shape of one link record, what a
 * valid table looks like, the lookups the route handlers run against it, and
 * the row-level changes they make, with the facts the handlers rely on.
 */
module UrlModel {
  import opened Common

  /** `nanoid(6)` produces six characters. */
  const CodeLength: nat := 6

  /** nanoid's default alphabet: `A-Z a-z 0-9 _ -`. */
  predicate NanoidChar(c: char)
  {
    ('A' <= c <= 'Z') || ('a' <= c <= 'z') || ('0' <= c <= '9') || c == '_' || c == '-'
  }

  predicate IsShortCode(s: string)
  {
    |s| == CodeLength && forall i :: 0 <= i < |s| ==> NanoidChar(s[i])
  }

  /** A code as `nanoid(6)` returns it; which one it returns is an input of the model. */
  type ShortCode = s: string | IsShortCode(s) witness "AAAAAA"

  /** One row of `urls`. `original_url` and `short_url` are NOT NULL, `clicks`
      is a non-negative counter, `user_id` and `deleted_at` are nullable. */
  datatype Link = Link(
    id: int,
    originalUrl: string,
    shortUrl: string,
    clicks: nat,
    userId: Option<int>,
    createdAt: Time,
    updatedAt: Time,
    deletedAt: Option<Time>)

  /** The attributes `GET /urls` selects: everything but user_id and deleted_at. */
  datatype LinkView = LinkView(
    id: int,
    originalUrl: string,
    shortUrl: string,
    clicks: nat,
    createdAt: Time,
    updatedAt: Time)

  function View(l: Link): LinkView
  {
    LinkView(l.id, l.originalUrl, l.shortUrl, l.clicks, l.createdAt, l.updatedAt)
  }

  /** A row is live until it is soft-deleted. */
  predicate Live(l: Link)
  {
    l.deletedAt.None?
  }

  /** The two `where` clauses of the `findOne` calls: by id and owner (update,
      delete) and by code (redirect). Both also demand `deleted_at: null`. */
  datatype Query = ById(id: int, owner: int) | ByCode(code: string)

  predicate Matches(l: Link, q: Query)
  {
    Live(l) &&
    match q
    case ById(id, owner) => l.id == id && l.userId == Some(owner)
    case ByCode(code) => l.shortUrl == code
  }

  /** The `where` clause of `GET /urls`. */
  predicate Listed(l: Link, caller: int)
  {
    Live(l) && l.userId == Some(caller)
  }

  /** The value `user_id: req.user?.id || null` stores: a missing or falsy
      (zero) caller id becomes null. */
  function Owner(caller: Option<int>): Option<int>
  {
    if caller.Some? && caller.value != 0 then caller else None
  }

  /** The foreign key on `user_id`: null, or the id of an existing user. */
  predicate OwnerKnown(owner: Option<int>, userIds: set<int>)
  {
    owner.None? || owner.value in userIds
  }

  /** The unique index on `short_url` covers every row, soft-deleted ones included. */
  predicate CodeInUse(rows: seq<Link>, code: string)
  {
    exists i :: 0 <= i < |rows| && rows[i].shortUrl == code
  }

  /** The row `Url.create` inserts: column defaults give clicks 0, both
      timestamps now, and no deleted_at. */
  function NewLink(id: int, url: string, code: string, owner: Option<int>, now: Time): Link
  {
    Link(id, url, code, 0, owner, now, now, None)
  }

  /** The table invariant: ids come from an auto-increment counter, so they
      are positive, increase in insertion order and stay below the next id;
      short codes are unique across all rows. */
  ghost predicate TableValid(rows: seq<Link>, nextId: int)
  {
    && 1 <= nextId
    && (forall i :: 0 <= i < |rows| ==> 1 <= rows[i].id < nextId)
    && (forall i, j :: 0 <= i < j < |rows| ==> rows[i].id < rows[j].id)
    && (forall i, j :: 0 <= i < j < |rows| ==> rows[i].shortUrl != rows[j].shortUrl)
  }

  /** In a valid table no two rows share an id or a short code, and the next
      id is not taken. */
  lemma TableValidKeys(rows: seq<Link>, nextId: int)
    requires TableValid(rows, nextId)
    ensures forall i, j :: 0 <= i < |rows| && 0 <= j < |rows| && i != j ==>
              rows[i].id != rows[j].id && rows[i].shortUrl != rows[j].shortUrl
    ensures forall i :: 0 <= i < |rows| ==> rows[i].id != nextId
  {
  }

  /** The foreign key over the whole table: every owned row names a known user. */
  ghost predicate OwnersKnown(rows: seq<Link>, userIds: set<int>)
  {
    forall i :: 0 <= i < |rows| ==> OwnerKnown(rows[i].userId, userIds)
  }

  /** Users are only ever added, so a table whose owners are known stays so
      as the set of user ids grows. */
  lemma OwnersKnownGrows(rows: seq<Link>, userIds: set<int>, userIds': set<int>)
    requires OwnersKnown(rows, userIds)
    requires userIds <= userIds'
    ensures OwnersKnown(rows, userIds')
  {
  }

  /** `Url.findOne({ where: q })`: the first live row the query selects. */
  function Find(rows: seq<Link>, q: Query): (r: Option<nat>)
    ensures r.Some? ==> r.value < |rows| && Matches(rows[r.value], q)
    ensures r.None? <==> forall j :: 0 <= j < |rows| ==> !Matches(rows[j], q)
  {
    FindFirst(rows, (l: Link) => Matches(l, q))
  }

  /** `Url.findAll` of `GET /urls`: the caller's live rows, projected, in table order. */
  function Visible(rows: seq<Link>, caller: int): (r: seq<LinkView>)
    ensures |r| <= |rows|
    ensures forall i :: 0 <= i < |rows| && Listed(rows[i], caller) ==> View(rows[i]) in r
    ensures forall v :: v in r ==> exists i :: 0 <= i < |rows| && Listed(rows[i], caller) && v == View(rows[i])
  {
    if rows == [] then []
    else
      var rest := Visible(rows[1..], caller);
      assert forall i :: 1 <= i < |rows| ==> rows[i] == rows[1..][i - 1];
      if Listed(rows[0], caller) then [View(rows[0])] + rest else rest
  }

  /** The clicks recorded over the whole table. */
  function TotalClicks(rows: seq<Link>): nat
  {
    if rows == [] then 0 else rows[0].clicks + TotalClicks(rows[1..])
  }

  /** `url.original_url = ...; url.updated_at = new Date()` on row i. */
  function Retargeted(rows: seq<Link>, i: nat, url: string, now: Time): (r: seq<Link>)
    requires i < |rows|
    ensures |r| == |rows|
    ensures forall j :: 0 <= j < |rows| && j != i ==> r[j] == rows[j]
    ensures r[i].originalUrl == url && r[i].updatedAt == now
    ensures r[i].id == rows[i].id && r[i].shortUrl == rows[i].shortUrl && r[i].clicks == rows[i].clicks
    ensures r[i].userId == rows[i].userId && r[i].createdAt == rows[i].createdAt && r[i].deletedAt == rows[i].deletedAt
  {
    rows[i := rows[i].(originalUrl := url, updatedAt := now)]
  }

  /** `url.deleted_at = new Date()` on row i. */
  function SoftDeleted(rows: seq<Link>, i: nat, now: Time): (r: seq<Link>)
    requires i < |rows|
    ensures |r| == |rows|
    ensures forall j :: 0 <= j < |rows| && j != i ==> r[j] == rows[j]
    ensures r[i].deletedAt == Some(now) && !Live(r[i])
    ensures r[i].id == rows[i].id && r[i].shortUrl == rows[i].shortUrl && r[i].clicks == rows[i].clicks
    ensures r[i].userId == rows[i].userId && r[i].originalUrl == rows[i].originalUrl
    ensures r[i].createdAt == rows[i].createdAt && r[i].updatedAt == rows[i].updatedAt
  {
    rows[i := rows[i].(deletedAt := Some(now))]
  }

  /** `url.clicks += 1` on row i. */
  function Clicked(rows: seq<Link>, i: nat): (r: seq<Link>)
    requires i < |rows|
    ensures |r| == |rows|
    ensures forall j :: 0 <= j < |rows| && j != i ==> r[j] == rows[j]
    ensures r[i].clicks == rows[i].clicks + 1
    ensures r[i].id == rows[i].id && r[i].shortUrl == rows[i].shortUrl && r[i].originalUrl == rows[i].originalUrl
    ensures r[i].userId == rows[i].userId && r[i].deletedAt == rows[i].deletedAt
    ensures r[i].createdAt == rows[i].createdAt && r[i].updatedAt == rows[i].updatedAt
  {
    rows[i := rows[i].(clicks := rows[i].clicks + 1)]
  }

  // ---------------------------------------------------------------------
  // Lookups in a valid table

  /** In a valid table a query selects at most one row, so findOne returns it. */
  lemma FindLocates(rows: seq<Link>, nextId: int, q: Query, i: nat)
    requires TableValid(rows, nextId)
    requires i < |rows| && Matches(rows[i], q)
    ensures Find(rows, q) == Some(i)
  {
  }

  /** Changes that keep id, owner, code and deletion mark of every row leave
      every lookup's answer as it was. */
  lemma FindUnaffected(rows: seq<Link>, rows': seq<Link>, q: Query)
    requires |rows'| == |rows|
    requires forall j :: 0 <= j < |rows| ==>
      rows'[j].id == rows[j].id && rows'[j].userId == rows[j].userId &&
      rows'[j].shortUrl == rows[j].shortUrl && rows'[j].deletedAt == rows[j].deletedAt
    ensures Find(rows', q) == Find(rows, q)
  {
    SameMatchesSameFind(rows', (l: Link) => Matches(l, q), rows, (l: Link) => Matches(l, q));
  }

  // ---------------------------------------------------------------------
  // POST /short

  /** Visible distributes over appending a row. */
  lemma {:induction false} VisibleAppend(rows: seq<Link>, l: Link, caller: int)
    ensures Visible(rows + [l], caller) ==
            Visible(rows, caller) + (if Listed(l, caller) then [View(l)] else [])
  {
    if rows != [] {
      assert (rows + [l])[1..] == rows[1..] + [l];
      VisibleAppend(rows[1..], l, caller);
    }
  }

  /** Inserting a fresh row with the next id and an unused code keeps the
      table valid; the new code then resolves to the new row, and its owner
      (only) sees one more entry in the listing. */
  lemma ShortenEffect(rows: seq<Link>, nextId: int, url: string, code: string, owner: Option<int>, now: Time, caller: int)
    requires TableValid(rows, nextId)
    requires !CodeInUse(rows, code)
    ensures TableValid(rows + [NewLink(nextId, url, code, owner, now)], nextId + 1)
    ensures Find(rows + [NewLink(nextId, url, code, owner, now)], ByCode(code)) == Some(|rows|)
    ensures Visible(rows + [NewLink(nextId, url, code, owner, now)], caller) ==
            Visible(rows, caller) + (if owner == Some(caller) then [View(NewLink(nextId, url, code, owner, now))] else [])
  {
    var l := NewLink(nextId, url, code, owner, now);
    var rows' := rows + [l];
    forall i, j | 0 <= i < j < |rows'| ensures rows'[i].shortUrl != rows'[j].shortUrl {
      if j == |rows| {
        assert rows'[i] == rows[i];
      }
    }
    FindLocates(rows', nextId + 1, ByCode(code), |rows|);
    VisibleAppend(rows, l, caller);
  }

  /** A row stored without an owner is in no one's listing, and no caller's
      update or delete can find it by its id. */
  lemma OwnerlessLinkUnreachable(rows: seq<Link>, nextId: int, url: string, code: string, now: Time, caller: int)
    requires TableValid(rows, nextId)
    ensures Visible(rows + [NewLink(nextId, url, code, None, now)], caller) == Visible(rows, caller)
    ensures Find(rows + [NewLink(nextId, url, code, None, now)], ById(nextId, caller)).None?
  {
    VisibleAppend(rows, NewLink(nextId, url, code, None, now), caller);
  }

  /** Soft-deleted rows count against the unique index: a code taken by a
      deleted row cannot be issued again. */
  lemma DeletedCodeStaysTaken(rows: seq<Link>, i: nat, now: Time)
    requires i < |rows|
    ensures CodeInUse(SoftDeleted(rows, i, now), rows[i].shortUrl)
  {
    assert SoftDeleted(rows, i, now)[i].shortUrl == rows[i].shortUrl;
  }

  /** A row inserted with a known owner (or none) keeps every owner known. */
  lemma ShortenKeepsOwnersKnown(rows: seq<Link>, id: int, url: string, code: string, owner: Option<int>, now: Time,
                                userIds: set<int>)
    requires OwnersKnown(rows, userIds)
    requires OwnerKnown(owner, userIds)
    ensures OwnersKnown(rows + [NewLink(id, url, code, owner, now)], userIds)
  {
  }

  /** Update, delete and redirect never change a row's owner, so they keep
      every owner known. */
  lemma RowChangesKeepOwnersKnown(rows: seq<Link>, i: nat, url: string, now: Time, userIds: set<int>)
    requires i < |rows|
    requires OwnersKnown(rows, userIds)
    ensures OwnersKnown(Retargeted(rows, i, url, now), userIds)
    ensures OwnersKnown(SoftDeleted(rows, i, now), userIds)
    ensures OwnersKnown(Clicked(rows, i), userIds)
  {
  }

  // ---------------------------------------------------------------------
  // PUT /urls/:id

  /** Retargeting row i keeps the table valid and every lookup's answer; the
      row's code now resolves to the new URL. */
  lemma UpdateEffect(rows: seq<Link>, nextId: int, i: nat, url: string, now: Time, q: Query)
    requires TableValid(rows, nextId)
    requires i < |rows|
    ensures TableValid(Retargeted(rows, i, url, now), nextId)
    ensures Find(Retargeted(rows, i, url, now), q) == Find(rows, q)
    ensures Retargeted(rows, i, url, now)[i].originalUrl == url
    ensures Live(rows[i]) ==> Find(Retargeted(rows, i, url, now), ByCode(rows[i].shortUrl)) == Some(i)
  {
    var rows' := Retargeted(rows, i, url, now);
    FindUnaffected(rows, rows', q);
    if Live(rows[i]) {
      FindLocates(rows', nextId, ByCode(rows[i].shortUrl), i);
    }
  }

  // ---------------------------------------------------------------------
  // DELETE /urls/:id

  /** Soft-deleting row i keeps every row (so the count), keeps the table
      valid, and hides the row from every later lookup and listing. */
  lemma DeleteEffect(rows: seq<Link>, nextId: int, i: nat, now: Time, caller: int)
    requires TableValid(rows, nextId)
    requires i < |rows|
    ensures |SoftDeleted(rows, i, now)| == |rows|
    ensures TableValid(SoftDeleted(rows, i, now), nextId)
    ensures Find(SoftDeleted(rows, i, now), ById(rows[i].id, caller)).None?
    ensures Find(SoftDeleted(rows, i, now), ByCode(rows[i].shortUrl)).None?
    ensures forall v :: v in Visible(SoftDeleted(rows, i, now), caller) ==> v.id != rows[i].id
  {
  }

  // ---------------------------------------------------------------------
  // GET /:short_url

  /** A redirect adds exactly one click to the table's total. */
  lemma {:induction false} ClickedCounts(rows: seq<Link>, i: nat)
    requires i < |rows|
    ensures TotalClicks(Clicked(rows, i)) == TotalClicks(rows) + 1
  {
    if i > 0 {
      assert Clicked(rows, i)[1..] == Clicked(rows[1..], i - 1);
      ClickedCounts(rows[1..], i - 1);
    } else {
      assert Clicked(rows, i)[1..] == rows[1..];
    }
  }

  /** A redirect changes no lookup: the same code keeps resolving to the
      same row, whose clicks went up by one. */
  lemma ResolveEffect(rows: seq<Link>, nextId: int, i: nat, q: Query)
    requires TableValid(rows, nextId)
    requires i < |rows|
    ensures TableValid(Clicked(rows, i), nextId)
    ensures Find(Clicked(rows, i), q) == Find(rows, q)
    ensures Clicked(rows, i)[i].clicks == rows[i].clicks + 1
    ensures TotalClicks(Clicked(rows, i)) == TotalClicks(rows) + 1
  {
    FindUnaffected(rows, Clicked(rows, i), q);
    ClickedCounts(rows, i);
  }
}
