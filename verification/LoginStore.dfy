/**
 The saved logins of the command line, keyed by daemon endpoint, and the three
 updates of them.
 */
module LoginStore {

  datatype Account = Account(username: string, token: string)

  /** `selected` is empty when no account remains. */
  datatype Endpoint = Endpoint(selected: string, accounts: map<string, Account>)

  type Store = map<string, Endpoint>

  // ----- The order of keys

  /** The order of strings, by their characters. */
  predicate Le(s: string, t: string) {
    s == "" || (t != "" && (s[0] < t[0] || (s[0] == t[0] && Le(s[1..], t[1..]))))
  }

  lemma {:induction false} LeIsTotalOrder(s: string, t: string, u: string)
    ensures Le(s, t) || Le(t, s)
    ensures Le(s, t) && Le(t, s) ==> s == t
    ensures Le(s, t) && Le(t, u) ==> Le(s, u)
  {
    if s != "" && t != "" {
      LeIsTotalOrder(s[1..], t[1..], if u == "" then u else u[1..]);
      if s[0] == t[0] && s[1..] == t[1..] {
        assert s == [s[0]] + s[1..];
      }
    }
  }

  predicate IsLeast(keys: set<string>, k: string) {
    k in keys && forall j <- keys :: Le(k, j)
  }

  lemma {:induction false} LeastExists(keys: set<string>) returns (k: string)
    requires keys != {}
    ensures IsLeast(keys, k)
  {
    var some :| some in keys;
    var others := keys - {some};
    if others == {} {
      k := some;
      LeIsTotalOrder(some, some, some);
      assert keys == {some};
    } else {
      var least := LeastExists(others);
      LeIsTotalOrder(some, least, least);
      LeIsTotalOrder(some, some, some);
      k := if Le(some, least) then some else least;
      forall j | j in keys ensures Le(k, j) {
        if j != some { LeIsTotalOrder(k, least, j); }
      }
    }
  }

  /** The first key of a sorted map, or nothing. */
  function FirstKey(accounts: map<string, Account>): (k: string)
    ensures accounts == map[] ==> k == ""
    ensures accounts != map[] ==> IsLeast(accounts.Keys, k)
  {
    if accounts == map[] then ""
    else
      assert exists k :: IsLeast(accounts.Keys, k) by { var least := LeastExists(accounts.Keys); }
      assert forall a, b :: IsLeast(accounts.Keys, a) && IsLeast(accounts.Keys, b) ==> a == b by {
        forall a, b | IsLeast(accounts.Keys, a) && IsLeast(accounts.Keys, b) ensures a == b {
          LeIsTotalOrder(a, b, b);
        }
      }
      var k :| k in accounts.Keys && IsLeast(accounts.Keys, k);
      k
  }

  // ----- The updates

  datatype Update =
    | Login(key: string, id: string, username: string, token: string)
    | Rename(key: string, id: string, username: string)
    | Logout(key: string, id: string, token: string)

  predicate Saved(store: Store, key: string, id: string) {
    key in store && id in store[key].accounts
  }

  function Token(store: Store, key: string, id: string): string
    requires Saved(store, key, id)
  {
    store[key].accounts[id].token
  }

  /** The endpoint without account `id`, if it still holds `token`. */
  function WithoutAccount(endpoint: Endpoint, id: string, token: string): Endpoint {
    var accounts := if id in endpoint.accounts && endpoint.accounts[id].token == token
                    then endpoint.accounts - {id} else endpoint.accounts;
    Endpoint(if endpoint.selected in accounts then endpoint.selected else FirstKey(accounts), accounts)
  }

  function Updated(store: Store, update: Update): Store {
    match update
    case Login(key, id, username, token) =>
      var accounts := if key in store then store[key].accounts else map[];
      store[key := Endpoint(id, accounts[id := Account(username, token)])]
    case Rename(key, id, username) =>
      if !Saved(store, key, id) then store
      else
        var endpoint := store[key];
        store[key := endpoint.(accounts := endpoint.accounts[id := endpoint.accounts[id].(username := username)])]
    case Logout(key, id, token) =>
      if key !in store then store else store[key := WithoutAccount(store[key], id, token)]
  }

  class Credentials {
    var endpoints: Store

    constructor ()
      ensures endpoints == map[]
    {
      endpoints := map[];
    }

    method Remove(key: string, id: string, token: string)
      modifies this
      ensures endpoints == Updated(old(endpoints), Logout(key, id, token))
    {
      if key in endpoints {
        var endpoint := endpoints[key];
        if id in endpoint.accounts && endpoint.accounts[id].token == token {
          endpoint := endpoint.(accounts := endpoint.accounts - {id});
        }
        if endpoint.selected !in endpoint.accounts {
          endpoint := endpoint.(selected := FirstKey(endpoint.accounts));
        }
        endpoints := endpoints[key := endpoint];
      }
    }

    method SaveUsername(key: string, id: string, username: string)
      modifies this
      ensures endpoints == Updated(old(endpoints), Rename(key, id, username))
    {
      if key in endpoints && id in endpoints[key].accounts {
        var endpoint := endpoints[key];
        var account := endpoint.accounts[id].(username := username);
        endpoints := endpoints[key := endpoint.(accounts := endpoint.accounts[id := account])];
      }
    }

    method SaveLogin(key: string, id: string, username: string, token: string)
      modifies this
      ensures endpoints == Updated(old(endpoints), Login(key, id, username, token))
    {
      if key !in endpoints { endpoints := endpoints[key := Endpoint("", map[])]; }
      var endpoint := endpoints[key].(selected := id);
      endpoint := endpoint.(accounts := endpoint.accounts[id := Account(username, token)]);
      endpoints := endpoints[key := endpoint];
    }
  }

  // ----- What every update keeps

  /** An endpoint selects one of its accounts, or has none and selects nothing. */
  ghost predicate SelectionValid(endpoint: Endpoint) {
    endpoint.selected in endpoint.accounts || (endpoint.accounts == map[] && endpoint.selected == "")
  }

  ghost predicate SelectionsValid(store: Store) {
    forall key <- store.Keys :: SelectionValid(store[key])
  }

  /** An endpoint's selection is valid after an update exactly when it was before,
      or the update is a login or logout there, which repairs it. */
  lemma SelectionAfterUpdate(store: Store, update: Update, key: string)
    requires key in Updated(store, update)
    ensures SelectionValid(Updated(store, update)[key]) <==>
              (key == update.key && !update.Rename?) || (key in store && SelectionValid(store[key]))
  {
    if update.Rename? && key == update.key && Saved(store, key, update.id) {
      assert Updated(store, update)[key].accounts.Keys == store[key].accounts.Keys;
      assert store[key].accounts != map[] by { assert update.id in store[key].accounts; }
    }
  }

  lemma UpdatesKeepSelections(store: Store, update: Update)
    requires SelectionsValid(store)
    ensures SelectionsValid(Updated(store, update))
  {
    forall key | key in Updated(store, update) ensures SelectionValid(Updated(store, update)[key]) {
      SelectionAfterUpdate(store, update, key);
    }
  }

  /** An update touches the login it names only: a login disappears only through
      a logout holding its very token, and changes its token only by a login. */
  lemma OnlyNamedLoginChanges(store: Store, update: Update, key: string, id: string)
    ensures Saved(store, key, id) && !Saved(Updated(store, update), key, id) ==>
              update == Logout(key, id, Token(store, key, id))
    ensures !Saved(store, key, id) && Saved(Updated(store, update), key, id) ==>
              update.Login? && update.key == key && update.id == id
              && Token(Updated(store, update), key, id) == update.token
    ensures Saved(store, key, id) && Saved(Updated(store, update), key, id)
              && Token(store, key, id) != Token(Updated(store, update), key, id) ==>
              update.Login? && update.key == key && update.id == id
              && Token(Updated(store, update), key, id) == update.token
  {
  }

  /** Logging out drops the account exactly if it still holds the token, keeps a
      selection that remains saved, and otherwise selects the least account left. */
  lemma LogoutTakesEffect(store: Store, key: string, id: string, token: string)
    requires Saved(store, key, id)
    ensures var t := Updated(store, Logout(key, id, token));
      && (Saved(t, key, id) <==> Token(store, key, id) != token)
      && t[key].selected ==
           (if Saved(t, key, store[key].selected) then store[key].selected else FirstKey(t[key].accounts))
  {
  }

  /** Logging in saves the account as given and selects it. */
  lemma LoginTakesEffect(store: Store, key: string, id: string, username: string, token: string)
    ensures var t := Updated(store, Login(key, id, username, token));
      Saved(t, key, id) && t[key].accounts[id] == Account(username, token) && t[key].selected == id
  {
  }

  /** Renaming changes the username of a saved login, and nothing without one. */
  lemma RenameTakesEffect(store: Store, key: string, id: string, username: string)
    ensures var t := Updated(store, Rename(key, id, username));
      if Saved(store, key, id) then
        Saved(t, key, id) && t[key].accounts[id] == Account(username, Token(store, key, id))
        && t[key].selected == store[key].selected
      else t == store
  {
  }

  /** Every other account keeps its username and token, and every other endpoint
      its selection. */
  lemma UpdatesLeaveOthers(store: Store, update: Update, key: string, id: string)
    ensures var t := Updated(store, update);
      && (key != update.key || id != update.id ==>
            (Saved(t, key, id) <==> Saved(store, key, id))
            && (Saved(store, key, id) ==> t[key].accounts[id] == store[key].accounts[id]))
      && (key != update.key ==> (key in t <==> key in store) && (key in store ==> t[key] == store[key]))
  {
  }
}
