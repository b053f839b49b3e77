/**
 * The browser-side account table and login session of `src/lib/auth.ts`: a list of accounts
 * (each user with a password hash) and at most one saved session, both kept in local
 * storage. The random ids and tokens and the clock are parameters.
 */
module Auth {
  import opened Wrappers
  import opened Text

  // ---------------------------------------------------------------------------------------
  // The password hash

  const TwoTo32: int := 0x1_0000_0000
  const TwoTo31: int := 0x8000_0000

  /** JavaScript's `ToInt32`: the signed 32-bit integer congruent to `x` modulo 2^32. */
  function Wrap32(x: int): (r: int)
    ensures -TwoTo31 <= r < TwoTo31
    ensures (x - r) % TwoTo32 == 0
  {
    var m := x % TwoTo32;
    if m >= TwoTo31 then m - TwoTo32 else m
  }

  /** Congruent numbers wrap to the same 32-bit integer. */
  lemma Wrap32Congruent(a: int, b: int)
    requires (a - b) % TwoTo32 == 0
    ensures Wrap32(a) == Wrap32(b)
  {
    var q := (a - b) / TwoTo32;
    assert a == b + q * TwoTo32;
    assert a % TwoTo32 == b % TwoTo32;
  }

  /** The hash loop run over `s` from the value `h`: each UTF-16 code unit `c` takes `h` to
      the 32-bit wrap of `31 * h + c`. */
  function HashFrom(h: int, s: string): (r: int)
    ensures s == [] ==> r == h
    ensures s != [] ==> -TwoTo31 <= r < TwoTo31
  {
    if s == [] then h else Wrap32(31 * HashFrom(h, s[..|s| - 1]) + s[|s| - 1] as int)
  }

  /** The hash of a password: the loop run from 0. */
  function PasswordHash(password: string): (h: int)
    ensures -TwoTo31 <= h < TwoTo31
    ensures password == [] ==> h == 0
  {
    HashFrom(0, password)
  }

  /** Running the loop over `s + t` is running it over `s` and then over `t`. */
  lemma {:induction false} HashFromAppend(h: int, s: string, t: string)
    ensures HashFrom(h, s + t) == HashFrom(HashFrom(h, s), t)
    decreases |t|
  {
    if t == [] {
      assert s + t == s;
    } else {
      assert (s + t)[..|s + t| - 1] == s + t[..|t| - 1];
      HashFromAppend(h, s, t[..|t| - 1]);
    }
  }

  function Digit36(d: nat): char
    requires d < 36
  {
    if d < 10 then ('0' as int + d) as char else ('a' as int + d - 10) as char
  }

  predicate IsDigit36(c: char) { IsDigit(c) || IsLower(c) }

  function Digit36Value(c: char): nat
    requires IsDigit36(c)
  {
    if IsDigit(c) then c as int - '0' as int else c as int - 'a' as int + 10
  }

  /** The base-36 digits of a natural number, most significant first, without leading
      zeros. */
  function Base36Nat(n: nat): (s: string)
    ensures |s| >= 1 && forall i :: 0 <= i < |s| ==> IsDigit36(s[i])
  {
    if n < 36 then [Digit36(n)] else Base36Nat(n / 36) + [Digit36(n % 36)]
  }

  function Base36Value(s: string): nat
    requires forall i :: 0 <= i < |s| ==> IsDigit36(s[i])
  {
    if s == [] then 0 else Base36Value(s[..|s| - 1]) * 36 + Digit36Value(s[|s| - 1])
  }

  lemma {:induction false} Base36NatRoundTrip(n: nat)
    ensures Base36Value(Base36Nat(n)) == n
  {
    if n >= 36 {
      var s := Base36Nat(n);
      assert s[..|s| - 1] == Base36Nat(n / 36);
      Base36NatRoundTrip(n / 36);
    }
  }

  /** `n.toString(36)`: the base-36 digits of `|n|`, after a minus sign when `n` is negative. */
  function Base36(n: int): string {
    if n < 0 then "-" + Base36Nat(-n) else Base36Nat(n)
  }

  /** The text starts with a minus sign exactly for a negative number. */
  lemma Base36Sign(n: int)
    ensures |Base36(n)| >= 1 && (Base36(n)[0] == '-' <==> n < 0)
  {
    if n >= 0 {
      assert IsDigit36(Base36Nat(n)[0]);
    }
  }

  /** Distinct numbers have distinct base-36 texts, so comparing hash texts is comparing
      hashes. */
  lemma Base36Injective(m: int, n: int)
    requires Base36(m) == Base36(n)
    ensures m == n
  {
    Base36Sign(m);
    Base36Sign(n);
    if m < 0 {
      assert Base36Nat(-m) == Base36Nat(-n) by {
        assert Base36(m)[1..] == Base36Nat(-m);
        assert Base36(n)[1..] == Base36Nat(-n);
      }
      Base36NatRoundTrip(-m);
      Base36NatRoundTrip(-n);
    } else {
      Base36NatRoundTrip(m);
      Base36NatRoundTrip(n);
    }
  }

  /** The stored hash text of a password. */
  function HashText(password: string): string {
    Base36(PasswordHash(password))
  }

  /** `hashPassword`: the loop as written (shift by 5, subtract, add the code unit, wrap
      with `hash & hash`) computes `PasswordHash`. */
  method HashPassword(password: string) returns (hash: string)
    ensures hash == HashText(password)
    ensures password == [] ==> hash == "0"
  {
    var h := 0;
    for i := 0 to |password|
      invariant h == PasswordHash(password[..i])
    {
      var code := password[i] as int;
      var shifted := Wrap32(h * 32);
      Wrap32Congruent(shifted - h + code, 31 * h + code);
      h := Wrap32(shifted - h + code);
      assert password[..i + 1][..i] == password[..i];
    }
    assert password[..|password|] == password;
    hash := Base36(h);
  }

  /** Adding a multiple of 2^32 does not change the wrap. */
  lemma Wrap32Shift(x: int, d: int)
    ensures Wrap32(x + d * TwoTo32) == Wrap32(x)
  {
  }

  /** From any value, "Aa" and "BB" lead to the same value. */
  lemma AaBbCollide(h: int)
    ensures HashFrom(h, "Aa") == HashFrom(h, "BB")
  {
    assert "Aa"[..1] == "A" && "BB"[..1] == "B";
    var a, b := Wrap32(31 * h + 65), Wrap32(31 * h + 66);
    var qa, qb := (31 * h + 65 - a) / TwoTo32, (31 * h + 66 - b) / TwoTo32;
    assert a == 31 * h + 65 - qa * TwoTo32;
    assert b == 31 * h + 66 - qb * TwoTo32;
    var d := 31 * (qb - qa);
    assert 31 * a + 97 == (31 * b + 66) + d * TwoTo32;
    Wrap32Shift(31 * b + 66, d);
  }

  /** The hash does not identify the password: putting "BB" in place of "Aa" anywhere
      keeps the hash, so for instance "AaAaAa" and "BBAaAa" log in to each other's
      accounts. */
  lemma CollidingPasswords(p: string, q: string)
    ensures p + "Aa" + q != p + "BB" + q
    ensures HashText(p + "Aa" + q) == HashText(p + "BB" + q)
  {
    assert (p + "Aa" + q)[|p|] != (p + "BB" + q)[|p|];
    HashFromAppend(0, p + "Aa", q);
    HashFromAppend(0, p + "BB", q);
    HashFromAppend(0, p, "Aa");
    HashFromAppend(0, p, "BB");
    AaBbCollide(HashFrom(0, p));
  }

  // ---------------------------------------------------------------------------------------
  // Accounts

  /** A user as returned to callers: never with the password hash. */
  datatype User = User(id: string, name: string, email: string, createdAt: string)

  /** A stored account: the user and the hash text of their password. */
  datatype Account = Account(user: User, passwordHash: string)

  /** The outcome of an operation: its error message, or its value. */
  datatype Outcome<T> = Rejected(error: string) | Accepted(value: T)

  /** A login session. */
  datatype Session = Session(user: User, token: string, expiresAt: int)

  const DuplicateEmail := "An account with this email already exists"
  const ShortPassword := "Password must be at least 6 characters"
  const InvalidLogin := "Invalid email or password"
  const UnknownUser := "User not found"

  /** Seven days in milliseconds. */
  const SessionLength: int := 7 * 24 * 60 * 60 * 1000

  /** No two accounts share an e-mail address, ignoring case. */
  predicate UniqueEmails(accounts: seq<Account>) {
    forall i, j :: 0 <= i < j < |accounts| ==> Lower(accounts[i].user.email) != Lower(accounts[j].user.email)
  }

  /** The first account whose e-mail equals `email` ignoring case, or -1. */
  function FindByEmail(accounts: seq<Account>, email: string): (k: int)
    ensures -1 <= k < |accounts|
    ensures k == -1 <==> forall j :: 0 <= j < |accounts| ==> Lower(accounts[j].user.email) != Lower(email)
    ensures k >= 0 ==> Lower(accounts[k].user.email) == Lower(email)
                       && forall j :: 0 <= j < k ==> Lower(accounts[j].user.email) != Lower(email)
  {
    if accounts == [] then -1
    else if Lower(accounts[0].user.email) == Lower(email) then 0
    else var k := FindByEmail(accounts[1..], email); if k == -1 then -1 else k + 1
  }

  /** The first account with the user id, or -1. */
  function FindById(accounts: seq<Account>, id: string): (k: int)
    ensures -1 <= k < |accounts|
    ensures k == -1 <==> forall j :: 0 <= j < |accounts| ==> accounts[j].user.id != id
    ensures k >= 0 ==> accounts[k].user.id == id && forall j :: 0 <= j < k ==> accounts[j].user.id != id
  {
    if accounts == [] then -1
    else if accounts[0].user.id == id then 0
    else var k := FindById(accounts[1..], id); if k == -1 then -1 else k + 1
  }

  /** The outcome of an operation on the account table and the table after it. */
  datatype Change<T> = Change(outcome: Outcome<T>, accounts: seq<Account>)

  /** `createUser` on a table: an address already taken is refused before the password is
      looked at; a password shorter than six is refused; otherwise one account is appended
      with the address lower-cased and the password hashed. */
  function Create(accounts: seq<Account>, id: string, name: string, email: string, password: string,
                  createdAt: string): (r: Change<User>)
    ensures FindByEmail(accounts, email) >= 0 ==> r == Change(Rejected(DuplicateEmail), accounts)
    ensures FindByEmail(accounts, email) < 0 && |password| < 6 ==> r == Change(Rejected(ShortPassword), accounts)
    ensures r.outcome.Accepted? <==> FindByEmail(accounts, email) < 0 && |password| >= 6
    ensures r.outcome.Accepted? ==>
              && r.accounts == accounts + [Account(r.outcome.value, HashText(password))]
              && r.outcome.value == User(id, name, Lower(email), createdAt)
  {
    if FindByEmail(accounts, email) >= 0 then Change(Rejected(DuplicateEmail), accounts)
    else if |password| < 6 then Change(Rejected(ShortPassword), accounts)
    else
      var user := User(id, name, Lower(email), createdAt);
      Change(Accepted(user), accounts + [Account(user, HashText(password))])
  }

  /** Creating accounts keeps the addresses unique. */
  lemma CreateKeepsEmailsUnique(accounts: seq<Account>, id: string, name: string, email: string,
                                password: string, createdAt: string)
    requires UniqueEmails(accounts)
    ensures UniqueEmails(Create(accounts, id, name, email, password, createdAt).accounts)
  {
    LowerIdempotent(email);
  }

  /** `loginUser` on a table: the first account with the address (ignoring case) whose
      stored hash equals the password's hash gets a session ending seven days from `now`;
      an unknown address and a wrong password get the same error. */
  function Login(accounts: seq<Account>, email: string, password: string, token: string, now: int): (r: Outcome<Session>)
    ensures var k := FindByEmail(accounts, email);
            r.Accepted? <==> k >= 0 && accounts[k].passwordHash == HashText(password)
    ensures r.Rejected? ==> r.error == InvalidLogin
    ensures r.Accepted? ==> && r.value.user == accounts[FindByEmail(accounts, email)].user
                            && r.value.token == token && r.value.expiresAt == now + SessionLength
  {
    var k := FindByEmail(accounts, email);
    if k < 0 || accounts[k].passwordHash != HashText(password) then Rejected(InvalidLogin)
    else Accepted(Session(accounts[k].user, token, now + SessionLength))
  }

  /** A new account can log in with its address, in any case, and its password. */
  lemma CreateThenLogin(accounts: seq<Account>, id: string, name: string, email: string, password: string,
                        createdAt: string, email2: string, token: string, now: int)
    requires Create(accounts, id, name, email, password, createdAt).outcome.Accepted?
    requires Lower(email2) == Lower(email)
    ensures var c := Create(accounts, id, name, email, password, createdAt);
            Login(c.accounts, email2, password, token, now) == Accepted(Session(c.outcome.value, token, now + SessionLength))
  {
    var c := Create(accounts, id, name, email, password, createdAt);
    LowerIdempotent(email);
    assert forall j :: 0 <= j < |accounts| ==> c.accounts[j] == accounts[j];
    assert Lower(c.accounts[|accounts|].user.email) == Lower(email2);
  }

  /** The fields `updateUser` may overwrite; `None` leaves a field as it is. */
  datatype UserUpdate = UserUpdate(id: Option<string>, name: Option<string>, email: Option<string>,
                                   createdAt: Option<string>)

  /** `{ ...user, ...updates }` */
  function Merge(u: User, upd: UserUpdate): User {
    User(upd.id.GetOr(u.id), upd.name.GetOr(u.name), upd.email.GetOr(u.email), upd.createdAt.GetOr(u.createdAt))
  }

  /** `updateUser` on a table: an unknown id is refused; otherwise the first account with the
      id gets the merged user and keeps its password hash, and no other account changes. */
  function Update(accounts: seq<Account>, userId: string, upd: UserUpdate): (r: Change<User>)
    ensures FindById(accounts, userId) < 0 <==> r == Change(Rejected(UnknownUser), accounts)
    ensures |r.accounts| == |accounts|
    ensures forall j :: 0 <= j < |accounts| ==> r.accounts[j].passwordHash == accounts[j].passwordHash
    ensures forall j :: 0 <= j < |accounts| && j != FindById(accounts, userId) ==> r.accounts[j] == accounts[j]
    ensures r.outcome.Accepted? ==> var k := FindById(accounts, userId);
                                    r.accounts[k].user == r.outcome.value == Merge(accounts[k].user, upd)
  {
    var k := FindById(accounts, userId);
    if k < 0 then Change(Rejected(UnknownUser), accounts)
    else
      var user := Merge(accounts[k].user, upd);
      Change(Accepted(user), accounts[k := Account(user, accounts[k].passwordHash)])
  }

  /** An update that leaves the address alone changes nobody's login. */
  lemma UpdateKeepsLogin(accounts: seq<Account>, userId: string, upd: UserUpdate, email: string, password: string,
                         token: string, now: int)
    requires upd.email.None?
    ensures var after := Update(accounts, userId, upd).accounts;
            var before := Login(accounts, email, password, token, now);
            var later := Login(after, email, password, token, now);
            before.Accepted? <==> later.Accepted?
  {
    var after := Update(accounts, userId, upd).accounts;
    assert forall j :: 0 <= j < |accounts| ==> after[j].user.email == accounts[j].user.email;
    FindByEmailSameEmails(accounts, after, email);
  }

  lemma {:induction false} FindByEmailSameEmails(xs: seq<Account>, ys: seq<Account>, email: string)
    requires |xs| == |ys| && forall j :: 0 <= j < |xs| ==> xs[j].user.email == ys[j].user.email
    ensures FindByEmail(xs, email) == FindByEmail(ys, email)
  {
    if xs != [] {
      FindByEmailSameEmails(xs[1..], ys[1..], email);
    }
  }

  // ---------------------------------------------------------------------------------------
  // The session

  /** The saved session entry: none, one that does not parse, or a session. */
  datatype SessionSlot = NoSession | Unreadable | Saved(session: Session)

  /** `getSession`'s answer: a saved session is current until `now` passes its end. */
  function CurrentSession(slot: SessionSlot, now: int): (r: Option<Session>)
    ensures r.Some? <==> slot.Saved? && now <= slot.session.expiresAt
    ensures r.Some? ==> r.value == slot.session
  {
    if slot.Saved? && now <= slot.session.expiresAt then Some(slot.session) else None
  }

  /** The saved entry after `getSession`: an expired session is removed. */
  function AfterSessionRead(slot: SessionSlot, now: int): (r: SessionSlot)
    ensures r == NoSession || r == slot
    ensures CurrentSession(r, now) == CurrentSession(slot, now)
  {
    if slot.Saved? && now > slot.session.expiresAt then NoSession else slot
  }

  /** A session from a login at `now` is current through `now + SessionLength`, the last
      millisecond included, and over one millisecond later. */
  lemma SessionLifetime(accounts: seq<Account>, email: string, password: string, token: string, now: int, later: int)
    requires Login(accounts, email, password, token, now).Accepted?
    ensures var slot := Saved(Login(accounts, email, password, token, now).value);
            CurrentSession(slot, later).Some? <==> later <= now + SessionLength
  {
  }

  /** The session entry after a successful update of `userId` to `user`: read (so an expired
      session is removed), then given the new user if it belongs to `userId`. */
  function AfterUpdate(slot: SessionSlot, now: int, userId: string, user: User): (r: SessionSlot)
    ensures CurrentSession(slot, now).Some? && slot.session.user.id == userId ==>
              r == Saved(slot.session.(user := user))
    ensures CurrentSession(slot, now).Some? && slot.session.user.id != userId ==> r == slot
    ensures CurrentSession(slot, now).None? ==> CurrentSession(r, now).None?
  {
    var read := AfterSessionRead(slot, now);
    if read.Saved? && read.session.user.id == userId then Saved(read.session.(user := user)) else read
  }

  // ---------------------------------------------------------------------------------------
  // The store

  /** Local storage as `auth.ts` uses it: the account table (`None` when the stored text
      does not parse, which reads as no accounts) and the session entry. */
  class UserStore {
    var table: Option<seq<Account>>
    var slot: SessionSlot

    constructor(table: Option<seq<Account>>, slot: SessionSlot)
      ensures this.table == table && this.slot == slot
    {
      this.table := table;
      this.slot := slot;
    }

    /** `getUsers` */
    function Accounts(): seq<Account>
      reads this
    {
      table.GetOr([])
    }

    /** `createUser`; a new account rewrites the whole table, a refusal writes nothing. */
    method CreateUser(name: string, email: string, password: string, id: string, createdAt: string)
      returns (result: Outcome<User>)
      modifies this
      ensures Create(old(Accounts()), id, name, email, password, createdAt) == Change(result, Accounts())
      ensures result.Rejected? ==> table == old(table)
      ensures slot == old(slot)
    {
      var users := Accounts();
      if FindByEmail(users, email) >= 0 {
        return Rejected(DuplicateEmail);
      }
      if |password| < 6 {
        return Rejected(ShortPassword);
      }
      var hash := HashPassword(password);
      var user := User(id, name, Lower(email), createdAt);
      users := users + [Account(user, hash)];
      table := Some(users);
      result := Accepted(user);
    }

    /** `loginUser`; a successful login saves its session. */
    method LoginUser(email: string, password: string, token: string, now: int) returns (result: Outcome<Session>)
      modifies this
      ensures result == Login(Accounts(), email, password, token, now)
      ensures table == old(table)
      ensures slot == (if result.Accepted? then Saved(result.value) else old(slot))
    {
      var users := Accounts();
      var k := FindByEmail(users, email);
      if k < 0 {
        return Rejected(InvalidLogin);
      }
      var hash := HashPassword(password);
      if users[k].passwordHash != hash {
        return Rejected(InvalidLogin);
      }
      var session := Session(users[k].user, token, now + SessionLength);
      slot := Saved(session);
      result := Accepted(session);
    }

    /** `getSession`: an expired session is removed and none is returned. */
    method GetSession(now: int) returns (session: Option<Session>)
      modifies this
      ensures session == CurrentSession(old(slot), now)
      ensures slot == AfterSessionRead(old(slot), now)
      ensures table == old(table)
    {
      match slot
      case NoSession => session := None;
      case Unreadable => session := None;
      case Saved(s) =>
        if now > s.expiresAt {
          Logout();
          session := None;
        } else {
          session := Some(s);
        }
    }

    /** `getCurrentUser` */
    method GetCurrentUser(now: int) returns (user: Option<User>)
      modifies this
      ensures user.Some? <==> CurrentSession(old(slot), now).Some?
      ensures user.Some? ==> user.value == old(slot).session.user
      ensures slot == AfterSessionRead(old(slot), now) && table == old(table)
    {
      var session := GetSession(now);
      user := if session.Some? then Some(session.value.user) else None;
    }

    /** `isAuthenticated` */
    method IsAuthenticated(now: int) returns (b: bool)
      modifies this
      ensures b <==> old(slot).Saved? && now <= old(slot).session.expiresAt
      ensures slot == AfterSessionRead(old(slot), now) && table == old(table)
    {
      var session := GetSession(now);
      b := session.Some?;
    }

    /** `logout` */
    method Logout()
      modifies this
      ensures slot == NoSession && table == old(table)
    {
      slot := NoSession;
    }

    /** `updateUser`: an unknown id changes nothing; otherwise the table is rewritten and the
        session is read, and given the new user when it belongs to `userId`. */
    method UpdateUser(userId: string, upd: UserUpdate, now: int) returns (result: Outcome<User>)
      modifies this
      ensures Update(old(Accounts()), userId, upd) == Change(result, Accounts())
      ensures result.Rejected? ==> table == old(table) && slot == old(slot)
      ensures result.Accepted? ==> slot == AfterUpdate(old(slot), now, userId, result.value)
    {
      var users := Accounts();
      var k := FindById(users, userId);
      if k < 0 {
        return Rejected(UnknownUser);
      }
      var user := Merge(users[k].user, upd);
      users := users[k := Account(user, users[k].passwordHash)];
      table := Some(users);
      var session := GetSession(now);
      if session.Some? && session.value.user.id == userId {
        slot := Saved(session.value.(user := user));
      }
      result := Accepted(user);
    }
  }
}
