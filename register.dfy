/**
 * Registration: the `users` table, the search for the least free referral
 * code `RS{n}` with `n >= 10000`, and the register handler's branches —
 * a missing wallet is refused, the wallet is lower-cased, a wallet already
 * registered gets its existing code back without an insert, and a new user is
 * inserted with the defaults filled in.
 */
module Registration {
  import opened Records

  // ---------------------------------------------------------------------------
  // Referral codes

  const FirstNumber: nat := 10000
  const Prefix: string := "RS"

  function DigitChar(d: nat): char
    requires d < 10
  {
    "0123456789"[d]
  }

  function DigitValue(c: char): nat {
    if '0' <= c <= '9' then (c as int - '0' as int) as nat else 0
  }

  predicate IsDigit(c: char) {
    '0' <= c <= '9'
  }

  /** The decimal numeral of `n`, without leading zeros (a template literal's `${n}`). */
  function NatToString(n: nat): (s: string)
    ensures s != [] && forall k :: 0 <= k < |s| ==> IsDigit(s[k])
  {
    if n < 10 then [DigitChar(n)] else NatToString(n / 10) + [DigitChar(n % 10)]
  }

  /** The number a string of decimal digits denotes. */
  function ParseNat(s: string): nat {
    if s == [] then 0 else ParseNat(s[..|s| - 1]) * 10 + DigitValue(s[|s| - 1])
  }

  /** A numeral reads back as the number it was written from. */
  lemma {:induction false} ParseNatToString(n: nat)
    ensures ParseNat(NatToString(n)) == n
  {
    var s := NatToString(n);
    if n >= 10 {
      ParseNatToString(n / 10);
      assert s[..|s| - 1] == NatToString(n / 10);
    }
  }

  /** The referral code of number `n`: `RS{n}`. */
  function Code(n: nat): string {
    Prefix + NatToString(n)
  }

  /** The default referrer is the very first code handed out. */
  lemma DefaultReferrerIsFirstCode()
    ensures Code(FirstNumber) == DefaultRefBy
  {
    assert NatToString(1) == "1";
    assert NatToString(10) == "10";
    assert NatToString(100) == "100";
    assert NatToString(1000) == "1000";
  }

  // ---------------------------------------------------------------------------
  // The `users` table

  datatype User = User(
    id: nat, wallet: string, email: Option<string>, phone: Option<string>, name: Option<string>,
    refCode: string, refBy: Option<string>, centerId: Option<string>, joinedAt: string, joinedDate: string)

  /** What `.maybeSingle()` answers: one row, no row, or an error (the store's, or more than one row). */
  datatype Lookup = Found(user: User) | NotFound | LookupError

  function WithRefCode(users: seq<User>, code: string): (ms: seq<User>)
    ensures forall u :: u in ms <==> u in users && u.refCode == code
  {
    if users == [] then []
    else
      var last := users[|users| - 1];
      WithRefCode(users[..|users| - 1], code) + (if last.refCode == code then [last] else [])
  }

  function WithWallet(users: seq<User>, wallet: string): (ms: seq<User>)
    ensures forall u :: u in ms <==> u in users && u.wallet == wallet
  {
    if users == [] then []
    else
      var last := users[|users| - 1];
      WithWallet(users[..|users| - 1], wallet) + (if last.wallet == wallet then [last] else [])
  }

  /** The answer `.maybeSingle()` gives for the matching rows `ms`, when the store itself does not fail. */
  function Single(ms: seq<User>): Lookup {
    if |ms| == 0 then NotFound else if |ms| == 1 then Found(ms[0]) else LookupError
  }

  /**
   * The `users` table. Besides its rows it keeps, for the proofs, the answer
   * of every lookup by wallet, every lookup by code and every insert, in order.
   */
  class UserTable {
    var users: seq<User>
    ghost var walletLookups: seq<Lookup>
    ghost var codeLookups: seq<Lookup>
    ghost var inserts: seq<Option<User>>

    constructor (initial: seq<User>)
      ensures users == initial && walletLookups == [] && codeLookups == [] && inserts == []
    {
      users := initial;
      walletLookups, codeLookups, inserts := [], [], [];
    }

    /** `.select(...).eq("ref_code", code).maybeSingle()`. */
    method FindByRefCode(code: string) returns (r: Lookup)
      modifies this
      ensures r == LookupError || r == Single(WithRefCode(users, code))
      ensures users == old(users) && codeLookups == old(codeLookups) + [r]
      ensures walletLookups == old(walletLookups) && inserts == old(inserts)
    {
      var failed: bool := *;
      r := if failed then LookupError else Single(WithRefCode(users, code));
      codeLookups := codeLookups + [r];
    }

    /** `.select(...).eq("wallet_address", wallet).maybeSingle()`. */
    method FindByWallet(wallet: string) returns (r: Lookup)
      modifies this
      ensures r == LookupError || r == Single(WithWallet(users, wallet))
      ensures users == old(users) && walletLookups == old(walletLookups) + [r]
      ensures codeLookups == old(codeLookups) && inserts == old(inserts)
    {
      var failed: bool := *;
      r := if failed then LookupError else Single(WithWallet(users, wallet));
      walletLookups := walletLookups + [r];
    }

    /** `.insert(row).select("id, ref_code").single()`: the store assigns the id, or refuses. */
    method Insert(row: User) returns (r: Option<User>)
      modifies this
      ensures r.Some? ==> r.value == row.(id := r.value.id) && users == old(users) + [r.value]
      ensures r.None? ==> users == old(users)
      ensures inserts == old(inserts) + [r]
      ensures walletLookups == old(walletLookups) && codeLookups == old(codeLookups)
    {
      var failed: bool := *;
      if failed {
        r := None;
      } else {
        var id: nat := *;
        r := Some(row.(id := id));
        users := users + [r.value];
      }
      inserts := inserts + [r];
    }
  }

  /** Some user holds the code of number `n`. */
  ghost predicate Taken(users: seq<User>, n: nat) {
    exists u :: u in users && u.refCode == Code(n)
  }

  /** `n` is the least number from `FirstNumber` on whose code nobody holds. */
  ghost predicate LeastFree(users: seq<User>, n: nat) {
    && FirstNumber <= n
    && !Taken(users, n)
    && forall m :: FirstNumber <= m < n ==> Taken(users, m)
  }

  /** The number a code stands for: its digits after the prefix. */
  function NumberOf(code: string): nat {
    if |code| < |Prefix| then 0 else ParseNat(code[|Prefix|..])
  }

  /** A code stands for the number it was made from, so distinct numbers give distinct codes. */
  lemma NumberOfCode(n: nat)
    ensures NumberOf(Code(n)) == n
  {
    assert Code(n)[|Prefix|..] == NatToString(n);
    ParseNatToString(n);
  }

  /** The codes the users hold. */
  function HeldCodes(users: seq<User>): set<string> {
    set u | u in users :: u.refCode
  }

  /** A number whose code a lookup found is taken, and its code is one of the held codes. */
  lemma FoundIsTaken(users: seq<User>, n: nat)
    requires Single(WithRefCode(users, Code(n))).Found?
    ensures Taken(users, n) && Code(n) in HeldCodes(users)
  {
    var u := Single(WithRefCode(users, Code(n))).user;
    assert u in WithRefCode(users, Code(n));
  }

  /** Every number below `n + 1` is taken once `n` is and every number below `n` was. */
  lemma TakenThrough(users: seq<User>, n: nat)
    requires forall m :: FirstNumber <= m < n ==> Taken(users, m)
    requires Taken(users, n)
    ensures forall m :: FirstNumber <= m < n + 1 ==> Taken(users, m)
  {
  }

  /** A number whose code a lookup did not find is free. */
  lemma NotFoundIsFree(users: seq<User>, n: nat)
    requires Single(WithRefCode(users, Code(n))).NotFound?
    ensures !Taken(users, n)
  {
  }

  /**
   * The bookkeeping of a search at number `n`: the codes passed over are held
   * codes, one for each number from `FirstNumber` up to `n`.
   */
  ghost predicate PassedBelow(passed: set<string>, held: set<string>, n: nat) {
    && FirstNumber <= n
    && passed <= held && |passed| == n - FirstNumber
    && forall c :: c in passed ==> NumberOf(c) < n
  }

  /** Passing over the held code of number `n` moves the search on to `n + 1`. */
  lemma PassOver(passed: set<string>, held: set<string>, n: nat)
    requires PassedBelow(passed, held, n) && Code(n) in held
    ensures PassedBelow(passed + {Code(n)}, held, n + 1)
  {
    NumberOfCode(n);
    assert Code(n) !in passed;
  }

  lemma SubsetCard<T>(a: set<T>, b: set<T>)
    requires a <= b
    ensures |a| <= |b|
  {
    assert b == a + (b - a);
  }

  /** How the code search ended: with a free code, or with the lookup error it rethrows. */
  datatype CodeSearch = NewCode(code: string) | SearchFailed

  /**
   * `generateNextReferralCode`: tries `RS10000`, `RS10001`, ... until a code
   * no user holds; a failed lookup ends the search with an error. The search
   * ends because every code it passes over is held by a different user. It
   * makes at least one lookup; every lookup but the last found its code, and
   * the last one decides the result.
   */
  method GenerateNextReferralCode(table: UserTable) returns (r: CodeSearch)
    modifies table
    ensures table.users == old(table.users)
    ensures table.walletLookups == old(table.walletLookups) && table.inserts == old(table.inserts)
    ensures old(table.codeLookups) < table.codeLookups
    ensures forall k :: |old(table.codeLookups)| <= k < |table.codeLookups| - 1 ==> table.codeLookups[k].Found?
    ensures r.SearchFailed? <==> table.codeLookups[|table.codeLookups| - 1].LookupError?
    ensures r.NewCode? <==> table.codeLookups[|table.codeLookups| - 1].NotFound?
    ensures r.NewCode? ==> exists n :: LeastFree(table.users, n) && r.code == Code(n)
  {
    var n := FirstNumber;
    ghost var users0, log0 := table.users, table.codeLookups;
    ghost var held := HeldCodes(table.users);
    ghost var passed: set<string> := {};
    while true
      invariant table.users == users0
      invariant table.walletLookups == old(table.walletLookups) && table.inserts == old(table.inserts)
      invariant log0 <= table.codeLookups
      invariant forall k :: |log0| <= k < |table.codeLookups| ==> table.codeLookups[k].Found?
      invariant PassedBelow(passed, held, n)
      invariant forall m :: FirstNumber <= m < n ==> Taken(table.users, m)
      decreases |held| - |passed|
    {
      SubsetCard(passed, held);
      var code := Code(n);
      var found := table.FindByRefCode(code);
      if found.LookupError? {
        return SearchFailed;
      }
      if found.NotFound? {
        NotFoundIsFree(table.users, n);
        assert LeastFree(table.users, n);
        return NewCode(code);
      }
      FoundIsTaken(table.users, n);
      TakenThrough(table.users, n);
      PassOver(passed, held, n);
      passed := passed + {code};
      n := n + 1;
    }
  }

  // ---------------------------------------------------------------------------
  // Request fields

  const DefaultEmail: string := ""
  const DefaultPhone: string := "01000000000"
  const DefaultRefBy: string := "RS10000"
  const DefaultName: string := ""
  const DefaultCenterId: string := "C001"

  /** A body field: left out, sent as null, or sent with a value. */
  datatype Field = Absent | Null | Given(value: string)

  /** A destructuring default: it replaces a field left out, but not one sent as null. */
  function Defaulted(f: Field, d: string): (r: Option<string>)
    ensures f.Absent? ==> r == Some(d)
    ensures f.Null? ==> r == None
    ensures f.Given? ==> r == Some(f.value)
  {
    match f
    case Absent => Some(d)
    case Null => None
    case Given(s) => Some(s)
  }

  /** The request body of `POST /api/register`. */
  datatype RegisterBody = RegisterBody(
    wallet: Field, email: Field, phone: Field, refBy: Field, name: Field, centerId: Field)

  /** The wallet is usable when it was sent as a non-empty string. */
  predicate HasWallet(b: RegisterBody) {
    b.wallet.Given? && b.wallet.value != ""
  }

  // ASCII lower-casing

  function LowerChar(c: char): char {
    if 'A' <= c <= 'Z' then (c as int + 32) as char else c
  }

  /** `toLowerCase()` on the ASCII letters. */
  function Lower(s: string): (t: string)
    ensures |t| == |s|
    ensures forall k :: 0 <= k < |s| ==> t[k] == LowerChar(s[k])
  {
    seq(|s|, k requires 0 <= k < |s| => LowerChar(s[k]))
  }

  /** A lower-cased address is its own normal form, so spellings that differ only in case meet in one row. */
  lemma LowerNormalizes(s: string, t: string)
    ensures Lower(Lower(s)) == Lower(s)
    ensures (forall k :: 0 <= k < |s| ==> 'A' <= s[k] <= 'Z' ==> false) ==> Lower(s) == s
    ensures |s| == |t| && (forall k :: 0 <= k < |s| ==> LowerChar(s[k]) == LowerChar(t[k])) ==> Lower(s) == Lower(t)
  {
    assert Lower(Lower(s)) == Lower(s);
  }

  // `String.prototype.trim`

  /** The white space `trim` removes, as far as this model knows it. */
  const Spaces: set<char> := {' ', '\t', '\n', '\r', '\U{000B}', '\U{000C}', '\U{00A0}', '\U{FEFF}'}

  predicate IsSpace(c: char) {
    c in Spaces
  }

  /** The number of white-space characters `s` starts with. */
  function Lead(s: string): (n: nat)
    ensures n <= |s|
  {
    if s != [] && IsSpace(s[0]) then 1 + Lead(s[1..]) else 0
  }

  /** The number of white-space characters `s` ends with (all of `s` when it is only white space). */
  function Trail(s: string): (n: nat)
    ensures n <= |s|
  {
    if s != [] && IsSpace(s[|s| - 1]) then 1 + Trail(s[..|s| - 1]) else 0
  }

  /** `s.trim()`: `s` without its leading white space, then without the trailing white space of what is left. */
  function Trim(s: string): string {
    var i := Lead(s);
    s[i..|s| - Trail(s[i..])]
  }

  /** `Lead` counts exactly the white-space run at the start. */
  lemma {:induction false} LeadSpec(s: string)
    ensures forall k :: 0 <= k < Lead(s) ==> IsSpace(s[k])
    ensures Lead(s) < |s| ==> !IsSpace(s[Lead(s)])
  {
    if s != [] && IsSpace(s[0]) {
      LeadSpec(s[1..]);
      forall k | 0 <= k < Lead(s)
        ensures IsSpace(s[k])
      {
        if k > 0 {
          assert s[k] == s[1..][k - 1];
        }
      }
      if Lead(s) < |s| {
        assert s[Lead(s)] == s[1..][Lead(s[1..])];
      }
    }
  }

  /** `Trail` counts exactly the white-space run at the end. */
  lemma {:induction false} TrailSpec(s: string)
    ensures forall k :: |s| - Trail(s) <= k < |s| ==> IsSpace(s[k])
    ensures Trail(s) < |s| ==> !IsSpace(s[|s| - Trail(s) - 1])
  {
    if s != [] && IsSpace(s[|s| - 1]) {
      var init := s[..|s| - 1];
      TrailSpec(init);
      forall k | |s| - Trail(s) <= k < |s|
        ensures IsSpace(s[k])
      {
        if k < |init| {
          assert s[k] == init[k];
        }
      }
      if Trail(s) < |s| {
        assert s[|s| - Trail(s) - 1] == init[|init| - Trail(init) - 1];
      }
    }
  }

  /** `TrailSpec` for a suffix `s[i..]`, stated in positions of `s`. */
  lemma TrailOfSuffix(s: string, i: nat)
    requires i <= |s|
    ensures var t := Trail(s[i..]);
      && (forall k :: |s| - t <= k < |s| ==> IsSpace(s[k]))
      && (i < |s| - t ==> !IsSpace(s[|s| - t - 1]))
  {
    var m := s[i..];
    TrailSpec(m);
    var t := Trail(m);
    forall k | |s| - t <= k < |s|
      ensures IsSpace(s[k])
    {
      assert s[k] == m[k - i];
    }
    if i < |s| - t {
      assert s[|s| - t - 1] == m[|m| - t - 1];
    }
  }

  /**
   * `trim` keeps a contiguous middle part of the string: everything cut off
   * at either end is white space, and what is left neither starts nor ends
   * with white space.
   */
  lemma TrimSpec(s: string)
    ensures var i := Lead(s); var t := Trim(s);
      && i + |t| <= |s| && t == s[i..i + |t|]
      && (forall k :: 0 <= k < i ==> IsSpace(s[k]))
      && (forall k :: i + |t| <= k < |s| ==> IsSpace(s[k]))
      && (t != [] ==> !IsSpace(t[0]) && !IsSpace(t[|t| - 1]))
  {
    LeadSpec(s);
    TrimTail(s);
    TrimEnds(s);
  }

  /** What `trim` cuts off at the end is white space. */
  lemma TrimTail(s: string)
    ensures var i := Lead(s); var t := Trim(s);
      i + |t| <= |s| && forall k :: i + |t| <= k < |s| ==> IsSpace(s[k])
  {
    TrailOfSuffix(s, Lead(s));
  }

  /** What `trim` keeps neither starts nor ends with white space. */
  lemma TrimEnds(s: string)
    ensures var t := Trim(s); t != [] ==> !IsSpace(t[0]) && !IsSpace(t[|t| - 1])
  {
    var i := Lead(s);
    var j := |s| - Trail(s[i..]);
    var t := Trim(s);
    if t != [] {
      LeadSpec(s);
      TrailOfSuffix(s, i);
      assert t[0] == s[i];
      assert t[|t| - 1] == s[j - 1];
    }
  }

  /** Trimming a trimmed string changes nothing. */
  lemma TrimIdempotent(s: string)
    ensures Trim(Trim(s)) == Trim(s)
  {
    var t := Trim(s);
    TrimSpec(s);
    assert Lead(t) == 0;
    assert Trail(t) == 0;
    assert t[0..|t|] == t;
  }

  /** `name?.trim() || null`: the trimmed name, or none when nothing but white space is left. */
  function FinalName(name: Field): (r: Option<string>)
    ensures r.Some? ==> r.value != [] && name.Given? && r.value == Trim(name.value)
    ensures name.Given? && Trim(name.value) != [] ==> r.Some?
  {
    match name
    case Absent => None
    case Null => None
    case Given(s) => if Trim(s) == [] then None else Some(Trim(s))
  }

  /** A string trims to nothing exactly when it is nothing but white space. */
  lemma TrimEmpty(s: string)
    ensures Trim(s) == [] <==> forall k :: 0 <= k < |s| ==> IsSpace(s[k])
  {
    TrimSpec(s);
    if Trim(s) != [] {
      assert Trim(s)[0] == s[Lead(s)];
    }
  }

  /**
   * The stored name is null exactly when no name was sent or it is nothing
   * but white space (the default `""` included); otherwise it is the sent
   * name trimmed, non-empty and without white space at either end.
   */
  lemma FinalNameSpec(name: Field)
    ensures FinalName(name).None? <==>
      !name.Given? || forall k :: 0 <= k < |name.value| ==> IsSpace(name.value[k])
    ensures FinalName(name).Some? ==>
      var n := FinalName(name).value;
      && n == Trim(name.value) && n != []
      && !IsSpace(n[0]) && !IsSpace(n[|n| - 1])
  {
    if name.Given? {
      TrimEmpty(name.value);
      TrimSpec(name.value);
    }
  }

  // ---------------------------------------------------------------------------
  // The handler

  /** What `POST /api/register` answers. */
  datatype RegisterResponse =
    | MissingWallet400
    | UserLookupFailed500
    | AlreadyRegistered(id: nat, refCode: string)
    | CodeSearchThrew
    | InsertFailed500
    | Registered(id: nat, refCode: string)

  /** The row a new registration inserts, before the store assigns its id. */
  function NewUser(b: RegisterBody, code: string, joinedAt: string, joinedDate: string): User
    requires HasWallet(b)
  {
    User(0, Lower(b.wallet.value), Defaulted(b.email, DefaultEmail), Defaulted(b.phone, DefaultPhone),
         FinalName(b.name), code, Defaulted(b.refBy, DefaultRefBy), Defaulted(b.centerId, DefaultCenterId),
         joinedAt, joinedDate)
  }

  /**
   * The row a registration stores: the lower-cased wallet and the new code;
   * every other field as sent, its default when it was left out (the first
   * referral code for `ref_by`), and null when it was sent as null.
   */
  lemma NewUserFields(b: RegisterBody, code: string, joinedAt: string, joinedDate: string)
    requires HasWallet(b)
    ensures var u := NewUser(b, code, joinedAt, joinedDate);
      && u.wallet == Lower(b.wallet.value) && u.refCode == code
      && u.joinedAt == joinedAt && u.joinedDate == joinedDate
      && (b.email.Given? ==> u.email == Some(b.email.value))
      && (b.phone.Given? ==> u.phone == Some(b.phone.value))
      && (b.refBy.Given? ==> u.refBy == Some(b.refBy.value))
      && (b.centerId.Given? ==> u.centerId == Some(b.centerId.value))
      && (b.email.Null? ==> u.email.None?) && (b.phone.Null? ==> u.phone.None?)
      && (b.refBy.Null? ==> u.refBy.None?) && (b.centerId.Null? ==> u.centerId.None?)
      && (b.email.Absent? ==> u.email == Some(""))
      && (b.phone.Absent? ==> u.phone == Some("01000000000"))
      && (b.refBy.Absent? ==> u.refBy == Some(Code(FirstNumber)))
      && (b.centerId.Absent? ==> u.centerId == Some("C001"))
  {
    DefaultReferrerIsFirstCode();
  }

  /**
   * `POST /api/register`: `table` is `users`; `joinedAt` and `joinedDate`
   * are the registration time and day. Each answer is tied to the store's
   * answers: a wallet lookup is made iff the wallet is usable; the code search
   * runs iff that lookup found nothing; the insert is tried iff the search
   * found a free code; and each 500 answers the failed step.
   */
  method Register(table: UserTable, body: RegisterBody, joinedAt: string, joinedDate: string)
    returns (resp: RegisterResponse)
    modifies table
    ensures !HasWallet(body) <==> resp == MissingWallet400
    ensures !HasWallet(body) ==>
      && table.walletLookups == old(table.walletLookups)
      && table.codeLookups == old(table.codeLookups) && table.inserts == old(table.inserts)
    ensures HasWallet(body) ==> |table.walletLookups| == |old(table.walletLookups)| + 1
    ensures resp == UserLookupFailed500 <==>
      HasWallet(body) && table.walletLookups[|old(table.walletLookups)|].LookupError?
    ensures resp.AlreadyRegistered? <==>
      HasWallet(body) && table.walletLookups[|old(table.walletLookups)|].Found?
    ensures old(table.codeLookups) <= table.codeLookups
    ensures old(table.codeLookups) != table.codeLookups <==>
      HasWallet(body) && table.walletLookups[|old(table.walletLookups)|].NotFound?
    ensures resp == CodeSearchThrew <==>
      old(table.codeLookups) != table.codeLookups && table.codeLookups[|table.codeLookups| - 1].LookupError?
    ensures old(table.inserts) <= table.inserts && |table.inserts| <= |old(table.inserts)| + 1
    ensures old(table.inserts) != table.inserts <==>
      old(table.codeLookups) != table.codeLookups && table.codeLookups[|table.codeLookups| - 1].NotFound?
    ensures resp == InsertFailed500 <==>
      old(table.inserts) != table.inserts && table.inserts[|old(table.inserts)|].None?
    ensures resp.Registered? <==>
      old(table.inserts) != table.inserts && table.inserts[|old(table.inserts)|].Some?
    ensures !resp.Registered? ==> table.users == old(table.users)
    ensures resp.AlreadyRegistered? ==>
      && HasWallet(body)
      && exists u :: u in old(table.users) && u.wallet == Lower(body.wallet.value)
                     && u.id == resp.id && u.refCode == resp.refCode
    ensures HasWallet(body) && (exists u :: u in old(table.users) && u.wallet == Lower(body.wallet.value)) ==>
      resp.AlreadyRegistered? || resp == UserLookupFailed500
    ensures resp.Registered? ==>
      && HasWallet(body)
      && (forall u :: u in old(table.users) ==> u.wallet != Lower(body.wallet.value))
      && (exists n :: LeastFree(old(table.users), n) && resp.refCode == Code(n))
      && table.users == old(table.users) + [NewUser(body, resp.refCode, joinedAt, joinedDate).(id := resp.id)]
  {
    if !HasWallet(body) {
      return MissingWallet400;
    }
    var normalized := Lower(body.wallet.value);
    var existing := table.FindByWallet(normalized);
    if existing.LookupError? {
      return UserLookupFailed500;
    }
    if existing.Found? {
      assert existing.user in WithWallet(table.users, normalized);
      return AlreadyRegistered(existing.user.id, existing.user.refCode);
    }
    var search := GenerateNextReferralCode(table);
    if search.SearchFailed? {
      return CodeSearchThrew;
    }
    var newRefCode := search.code;
    var finalName := FinalName(body.name);
    var row := User(0, normalized, Defaulted(body.email, DefaultEmail), Defaulted(body.phone, DefaultPhone),
                    finalName, newRefCode, Defaulted(body.refBy, DefaultRefBy), Defaulted(body.centerId, DefaultCenterId),
                    joinedAt, joinedDate);
    var inserted := table.Insert(row);
    if inserted.None? {
      return InsertFailed500;
    }
    return Registered(inserted.value.id, inserted.value.refCode);
  }
}
