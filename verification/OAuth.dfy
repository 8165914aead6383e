/** storage/table.go: binding accounts of outside providers to users. */
module OAuth {
  import opened Bytes
  import opened Keys
  import opened Messages
  import opened Storage
  import opened Table

  const GOOGLE := Lit("google")
  const TWITTER := Lit("twitter")

  /** Every provider but the two known ones falls to table 0. */
  function ProviderTable(provider: text): PrefixTable {
    if provider == GOOGLE then TABLE_OAUTH_GOOGLE
    else if provider == TWITTER then TABLE_OAUTH_TWITTER
    else 0
  }

  function UserKey(provider: text, userId: text): Key {
    MetaKey(ProviderTable(provider), userId)
  }

  /** Accounts share a row exactly when their ids agree and their providers do, or both
      providers are unknown. */
  lemma SharedRow(p1: text, u1: text, p2: text, u2: text)
    ensures UserKey(p1, u1).Bytes() == UserKey(p2, u2).Bytes()
       <==> u1 == u2 && (p1 == p2 || (p1 !in {GOOGLE, TWITTER} && p2 !in {GOOGLE, TWITTER}))
  {
    assert GOOGLE[0] != TWITTER[0];
    if UserKey(p1, u1).Bytes() == UserKey(p2, u2).Bytes() {
      BytesInjective(UserKey(p1, u1), UserKey(p2, u2));
    }
  }

  datatype Stored = Unreadable | Absent | Present(user: OAuthUser)

  /** A message with no field set marshals to nothing and reads as no row. */
  function Read(rows: Rows, k: seq<byte>): Stored {
    if k !in rows then Absent
    else match rows[k]
      case OAuthRow(u) => if u == EMPTY_OAUTH_USER then Absent else Present(u)
      case _ => Unreadable
  }

  method GetOAuthUser(mdb: Store, provider: text, userId: text) returns (key: Key, v: Stored)
    ensures key == UserKey(provider, userId) && v == Read(mdb.rows, key.Bytes())
    ensures key.MetaKey? && key.meta == userId
    ensures key.table == if provider == Lit("google") then TABLE_OAUTH_GOOGLE
                         else if provider == Lit("twitter") then TABLE_OAUTH_TWITTER else 0
    ensures var k := key.Bytes();
            && (v == Absent <==> k !in mdb.rows || mdb.rows[k] == OAuthRow(EMPTY_OAUTH_USER))
            && (v == Unreadable <==> k in mdb.rows && !mdb.rows[k].OAuthRow?)
            && (v.Present? ==> k in mdb.rows && mdb.rows[k] == OAuthRow(v.user))
  {
    var pt: PrefixTable := 0;
    if provider == GOOGLE {
      pt := TABLE_OAUTH_GOOGLE;
    } else if provider == TWITTER {
      pt := TABLE_OAUTH_TWITTER;
    }
    key := MetaKey(pt, userId);
    v := Read(mdb.rows, key.Bytes());
  }

  function PutUser(env: Env, rows: Rows, u: OAuthUser): (Rows, Option<OAuthUser>) {
    var k := UserKey(u.provider, u.userId).Bytes();
    match Read(rows, k)
    case Unreadable => (rows, None)
    case Absent => (rows[k := OAuthRow(u)], Some(u))
    case Present(v) =>
      if u.uuid != [] && v.uuid != [] && env.parseUuid(u.uuid).value != env.parseUuid(v.uuid).value then (rows, None)
      else
        var w := if u.uuid == [] then u.(uuid := v.uuid) else u;
        (rows[k := OAuthRow(w)], Some(w))
  }

  function Bind(rows: Rows, u: OAuthUser): (Rows, Option<OAuthUser>) {
    var k := UserKey(u.provider, u.userId).Bytes();
    match Read(rows, k)
    case Present(v) =>
      if u.uuid == v.uuid then (rows, Some(v))
      else if v.uuid != [] then (rows, None)
      else (rows[k := OAuthRow(u)], Some(u))
    case _ => (rows, None)
  }

  /** The uuid an account's row is bound to. */
  function Binding(env: Env, rows: Rows, k: seq<byte>): Option<Uuid> {
    match Read(rows, k)
    case Present(v) => if v.uuid == [] then None else Some(env.parseUuid(v.uuid).value)
    case _ => None
  }

  datatype Op = PutOp(u: OAuthUser) | BindOp(u: OAuthUser)

  function Apply(env: Env, rows: Rows, op: Op): Rows {
    match op
    case PutOp(u) => PutUser(env, rows, u).0
    case BindOp(u) => Bind(rows, u).0
  }

  function ApplyAll(env: Env, rows: Rows, ops: seq<Op>): Rows {
    if ops == [] then rows else Apply(env, ApplyAll(env, rows, ops[..|ops| - 1]), ops[|ops| - 1])
  }

  /** No account loses its uuid or gets another one. */
  ghost predicate KeepsBindings(env: Env, rows: Rows, rows': Rows) {
    forall k :: Binding(env, rows, k).Some? ==> Binding(env, rows', k) == Binding(env, rows, k)
  }

  lemma KeepsAll(env: Env, rows: Rows, op: Op)
    ensures KeepsBindings(env, rows, Apply(env, rows, op))
  {
    hide Apply, Binding;
    forall k | Binding(env, rows, k).Some? ensures Binding(env, Apply(env, rows, op), k) == Binding(env, rows, k) {
      ApplyKeepsBinding(env, rows, op, k);
    }
  }

  lemma ApplyKeepsBinding(env: Env, rows: Rows, op: Op, k: seq<byte>)
    ensures Binding(env, rows, k).Some? ==> Binding(env, Apply(env, rows, op), k) == Binding(env, rows, k)
  {
  }

  /** Refreshes the stored account. An account bound to another uuid is refused; one given
      without a uuid keeps the stored one. */
  method PutOAuthUser(env: Env, mdb: Store, u: OAuthUser) returns (r: Option<OAuthUser>)
    modifies mdb
    ensures (mdb.rows, r) == PutUser(env, old(mdb.rows), u)
    ensures KeepsBindings(env, old(mdb.rows), mdb.rows)
    ensures var k, rows := UserKey(u.provider, u.userId).Bytes(), old(mdb.rows);
            var stored := if k in rows && rows[k].OAuthRow? then rows[k].user else EMPTY_OAUTH_USER;
            && (r == None <==>
                  || (k in rows && !rows[k].OAuthRow?)
                  || (u.uuid != [] && stored.uuid != []
                      && env.parseUuid(u.uuid).value != env.parseUuid(stored.uuid).value))
            && (r == None ==> mdb.rows == rows)
            && (r.Some? ==>
                  && r.value == u.(uuid := if u.uuid == [] then stored.uuid else u.uuid)
                  && mdb.rows == rows[k := OAuthRow(r.value)])
  {
    KeepsAll(env, mdb.rows, PutOp(u));
    var key, v := GetOAuthUser(mdb, u.provider, u.userId);
    if v.Unreadable? {
      return None;
    }
    var w := u;
    if v.Present? {
      if w.uuid != [] && v.user.uuid != [] {
        var uuid1 := env.parseUuid(w.uuid);
        var uuid2 := env.parseUuid(v.user.uuid);
        if uuid1.value != uuid2.value {
          return None;
        }
      }
      if w.uuid == [] {
        w := w.(uuid := v.user.uuid);
      }
    }
    mdb.Put(key.Bytes(), OAuthRow(w));
    return Some(w);
  }

  /** The first binding stores the caller's message; the same uuid text again is answered
      from the store; any other is refused. */
  method BindOAuthUser(mdb: Store, u: OAuthUser) returns (r: Option<OAuthUser>)
    modifies mdb
    ensures (mdb.rows, r) == Bind(old(mdb.rows), u)
    ensures var k, rows := UserKey(u.provider, u.userId).Bytes(), old(mdb.rows);
            if k in rows && rows[k].OAuthRow? && rows[k].user != EMPTY_OAUTH_USER then
              var stored := rows[k].user;
              && (stored.uuid == u.uuid ==> r == Some(stored) && mdb.rows == rows)
              && (stored.uuid == [] != u.uuid ==> r == Some(u) && mdb.rows == rows[k := OAuthRow(u)])
              && (stored.uuid != [] && stored.uuid != u.uuid ==> r == None && mdb.rows == rows)
            else r == None && mdb.rows == rows
    ensures forall env: Env :: KeepsBindings(env, old(mdb.rows), mdb.rows)
  {
    forall env: Env ensures KeepsBindings(env, mdb.rows, Bind(mdb.rows, u).0) {
      KeepsAll(env, mdb.rows, BindOp(u));
    }
    var key, v := GetOAuthUser(mdb, u.provider, u.userId);
    if !v.Present? {
      return None;
    }
    if u.uuid == v.user.uuid {
      return Some(v.user);
    }
    if v.user.uuid != [] {
      return None;
    }
    mdb.Put(key.Bytes(), OAuthRow(u));
    return Some(u);
  }

  /** Over any sequence of calls, for any account and any uuid texts, a binding once made
      never goes away and never denotes another uuid. */
  lemma {:induction false} BindingIsWriteOnce(env: Env, rows: Rows, ops: seq<Op>, more: seq<Op>, k: seq<byte>)
    requires Binding(env, ApplyAll(env, rows, ops), k).Some?
    ensures Binding(env, ApplyAll(env, rows, ops + more), k) == Binding(env, ApplyAll(env, rows, ops), k)
  {
    hide Apply, Binding;
    if more == [] {
      assert ops + more == ops;
    } else {
      var all, n := ops + more, |more| - 1;
      assert all[..|all| - 1] == ops + more[..n];
      BindingIsWriteOnce(env, rows, ops, more[..n], k);
      ApplyKeepsBinding(env, ApplyAll(env, rows, ops + more[..n]), all[|all| - 1], k);
    }
  }

  /** Binding answers without an error exactly for a stored account that is unbound or
      bound under the very same text; then the answer's uuid is the one asked for. */
  lemma BindSucceedsIff(env: Env, rows: Rows, u: OAuthUser)
    ensures var k, (rows', r) := UserKey(u.provider, u.userId).Bytes(), Bind(rows, u);
            && (r.Some? <==> Read(rows, k).Present? && Read(rows, k).user.uuid in {[], u.uuid})
            && (r == None ==> rows' == rows)
            && (r.Some? ==>
                  && r.value.uuid == u.uuid
                  && Binding(env, rows', k) == if u.uuid == [] then None else Some(env.parseUuid(u.uuid).value))
  {
  }

  /** Once an account is bound, whatever calls follow, no one binds it to another uuid. */
  lemma NoOtherBindSucceeds(env: Env, rows: Rows, u: OAuthUser, more: seq<Op>, v: OAuthUser)
    requires Bind(rows, u).1.Some? && u.uuid != []
    requires UserKey(v.provider, v.userId).Bytes() == UserKey(u.provider, u.userId).Bytes()
    ensures Bind(ApplyAll(env, Bind(rows, u).0, more), v).1.Some? ==>
              env.parseUuid(v.uuid).value == env.parseUuid(u.uuid).value && v.uuid != []
  {
    hide Bind, Read, Key.Bytes;
    var k, bound := UserKey(u.provider, u.userId).Bytes(), Bind(rows, u).0;
    BindSucceedsIff(env, rows, u);
    assert ApplyAll(env, bound, []) == bound && [] + more == more;
    BindingIsWriteOnce(env, bound, [], more, k);
    BindSucceedsIff(env, ApplyAll(env, bound, more), v);
    BoundText(env, ApplyAll(env, bound, more), k);
  }

  lemma BoundText(env: Env, rows: Rows, k: seq<byte>)
    requires Binding(env, rows, k).Some?
    ensures Read(rows, k).Present? && Read(rows, k).user.uuid != []
    ensures Binding(env, rows, k) == Some(env.parseUuid(Read(rows, k).user.uuid).value)
  {
  }
}
