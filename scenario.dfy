/**
 * Clients of the two tables: the sign-up, shorten, follow and delete walk
 * through the service, once with an authenticated shorten and once with the
 * shorten route as it is mounted (without authentication).
 */
module Scenario {
  import opened Common
  import opened UrlModel
  import opened UrlRoutes
  import opened Auth

  /** Alice registers and logs in with the same credentials; both answers
      carry a token signed over her new id. */
  method SignUpThenLogIn(env: AuthEnv, salt: Salt, now: Time) returns (accounts: UserTable)
    requires BcryptSound(env) && env.isEmail("a@x.com")
    ensures fresh(accounts) && accounts.Valid() && accounts.env == env
    ensures accounts.users == [NewUser(env, 1, "alice", "a@x.com", "secret1", salt)]
  {
    accounts := new UserTable(env);
    var signup := accounts.Register(Some("alice"), Some("a@x.com"), Some("secret1"), salt, now);
    assert signup == Created(env.sign(1, now));
    assert accounts.users == [] + [NewUser(env, 1, "alice", "a@x.com", "secret1", salt)];

    RegisterThenLogin([], env, 1, Some("alice"), Some("a@x.com"), Some("secret1"), salt, now);
    var login := accounts.Login(Some("a@x.com"), Some("secret1"), now);
    assert login == Ok(env.sign(1, now));

    assert EmailTaken(accounts.users, "a@x.com") by {
      assert accounts.users[0].email == "a@x.com";
    }
    var again := accounts.Register(Some("alice2"), Some("a@x.com"), Some("secret2"), salt, now);
    assert again == BadRequest(EmailAlreadyExists);
  }

  /** A registered user shortens a URL as herself, sees it in her list,
      follows the short link twice, deletes it, and the link stops resolving
      while its row stays in the table. */
  method OwnedLinkLifecycle(validUrl: string -> bool, baseUrl: string, code: ShortCode, accounts: UserTable, alice: int, now: Time)
    requires validUrl("https://example.com")
    requires alice != 0 && alice in UserIds(accounts.users)
  {
    var links := new LinkTable(validUrl, baseUrl);
    var short := links.Shorten(Some("https://example.com"), Some(alice), code, accounts, now);
    assert short == Ok(baseUrl + "/" + code);
    var link := NewLink(1, "https://example.com", code, Some(alice), now);
    assert links.rows == [] + [link];
    ShortenEffect([], 1, "https://example.com", code, Some(alice), now, alice);
    var mine := links.List(alice);
    assert mine == [View(link)];

    FindLocates(links.rows, links.nextId, ByCode(code), 0);
    var visit := links.Resolve(code);
    assert visit == Redirect("https://example.com");
    FindLocates(links.rows, links.nextId, ByCode(code), 0);
    visit := links.Resolve(code);
    assert visit == Redirect("https://example.com");
    assert links.rows[0].clicks == 2;

    FindLocates(links.rows, links.nextId, ById(1, alice), 0);
    var before := links.rows;
    var gone := links.Delete(alice, 1, now);
    assert gone == Ok(UrlDeleted);
    DeleteEffect(before, links.nextId, 0, now, alice);
    visit := links.Resolve(code);
    assert visit == NotFound(UrlNotFound);
    gone := links.Delete(alice, 1, now);
    assert gone == NotFound(UrlNotFound);
    assert |links.rows| == 1;
  }

  /** The same walk with the shorten route as mounted: the link gets no
      owner, so Alice can follow it but neither list nor delete it. */
  method OwnerlessLinkLifecycle(validUrl: string -> bool, baseUrl: string, env: AuthEnv, code: ShortCode, now: Time)
    requires validUrl("https://example.com")
  {
    var links := new LinkTable(validUrl, baseUrl);
    var alice := 1;

    var accounts := new UserTable(env);
    var short := links.ShortenAsRouted(Some("https://example.com"), code, accounts, now);
    assert short == Ok(baseUrl + "/" + code);
    var mine := links.List(alice);
    assert mine == [];

    var visit := links.Resolve(code);
    assert visit == Redirect("https://example.com");

    var gone := links.Delete(alice, 1, now);
    assert gone == NotFound(UrlNotFound);
    visit := links.Resolve(code);
    assert visit == Redirect("https://example.com");
  }

  /** The foreign key holds across both tables while users register and
      links are shortened, retargeted, followed and deleted: no link ever
      names a user that is not in the registry. */
  method OwnersStayRegistered(links: LinkTable, accounts: UserTable, caller: int, code: ShortCode, url: string,
                              salt: Salt, now: Time)
    requires links.Valid() && accounts.Valid() && OwnersRegistered(links, accounts)
    modifies links, accounts
    ensures links.Valid() && accounts.Valid() && OwnersRegistered(links, accounts)
  {
    var signup := accounts.Register(Some("bob"), Some("b@x.com"), Some("secret2"), salt, now);
    OwnersKnownGrows(links.rows, old(UserIds(accounts.users)), UserIds(accounts.users));
    var short := links.Shorten(Some(url), Some(caller), code, accounts, now);
    var moved := links.Update(caller, 1, Some(url), now);
    var visit := links.Resolve(code);
    var gone := links.Delete(caller, 1, now);
  }
}
