/** What ACL rules do to a user's command permissions (acl.c). */
module AclRules {
  import opened Common

  const BITS: nat := 1024       // USER_COMMAND_BITS_COUNT
  const FUTURE: nat := BITS - 1 // the bit no command ever gets

  datatype Command = Command(name: string, id: nat, categories: set<nat>, fromModule: bool)

  // The rules that concern commands; passwords, keys and channels are separate.
  datatype Rule =
    | Everything(on: bool)              // +@all, -@all and their aliases
    | Category(on: bool, category: nat)
    | Single(on: bool, name: string)
    | Sub(name: string, sub: string)

  datatype User = User(bits: seq<bool>, subs: map<nat, seq<string>>, all: bool)

  datatype Error = NoEntry | Invalid

  datatype Result = Ok(user: User) | Err(error: Error)

  function Blank(): User { User(seq(BITS, _ => false), map[], false) }

  predicate SameName(a: string, b: string) { LowerAll(a) == LowerAll(b) }

  // An upper case letter and the same letter in lower case.
  predicate CasePair(x: char, y: char) { 'A' <= x <= 'Z' && y as int == x as int + 32 }

  /** Names are the same exactly if they differ in the case of ASCII letters only. */
  lemma SameNameIff(a: string, b: string)
    ensures SameName(a, b) <==>
            |a| == |b| && forall i | 0 <= i < |a| :: a[i] == b[i] || CasePair(a[i], b[i]) || CasePair(b[i], a[i])
  {
    if |a| == |b| {
      forall i | 0 <= i < |a|
        ensures Lower(a[i]) == Lower(b[i]) <==> a[i] == b[i] || CasePair(a[i], b[i]) || CasePair(b[i], a[i])
      {
        LowerPair(a[i], b[i]);
      }
      assert SameName(a, b) <==> forall i | 0 <= i < |a| :: LowerAll(a)[i] == LowerAll(b)[i];
      assert forall i | 0 <= i < |a| :: LowerAll(a)[i] == Lower(a[i]) && LowerAll(b)[i] == Lower(b[i]);
    } else {
      assert |LowerAll(a)| != |LowerAll(b)|;
    }
  }

  lemma LowerPair(x: char, y: char)
    ensures Lower(x) == Lower(y) <==> x == y || CasePair(x, y) || CasePair(y, x)
  {}

  function Lookup(table: seq<Command>, name: string): (r: Option<Command>)
    ensures r.Some? ==> r.value in table && SameName(r.value.name, name)
    ensures r.None? ==> forall c | c in table :: !SameName(c.name, name)
  {
    if table == [] then None
    else if SameName(table[0].name, name) then Some(table[0])
    else Lookup(table[1..], name)
  }

  predicate Has(subs: seq<string>, sub: string) { exists s | s in subs :: SameName(s, sub) }

  function SetBit(u: User, id: nat, on: bool): User
    requires |u.bits| == BITS
  {
    if id >= BITS then u else u.(bits := u.bits[id := on], all := u.all && on)
  }

  function SetCommand(u: User, id: nat, on: bool): User
    requires |u.bits| == BITS
  {
    SetBit(u, id, on).(subs := u.subs - {id})
  }

  function AddSub(u: User, id: nat, sub: string): User {
    var listed := if id in u.subs then u.subs[id] else [];
    if Has(listed, sub) then u else u.(subs := u.subs[id := listed + [sub]])
  }

  function Ids(table: seq<Command>, category: nat): set<nat> {
    set c | c in table && !c.fromModule && category in c.categories :: c.id
  }

  function SetCategory(u: User, table: seq<Command>, category: nat, on: bool): User
    requires |u.bits| == BITS
  {
    var ids := Ids(table, category);
    User(seq(BITS, i requires 0 <= i < BITS => if i in ids then on else u.bits[i]),
         u.subs - ids,
         u.all && (on || forall i | i in ids :: i >= BITS))
  }

  /** ACLSetUser, command part. */
  function SetUser(table: seq<Command>, categories: nat, u: User, rule: Rule): (r: Result)
    requires |u.bits| == BITS
    ensures r.Ok? ==> |r.user.bits| == BITS
  {
    match rule
    case Everything(on) => Ok(User(seq(BITS, _ => on), map[], on))
    case Category(on, c) => if c < categories then Ok(SetCategory(u, table, c, on)) else Err(NoEntry)
    case Single(on, name) =>
      (match Lookup(table, name)
       case None => Err(NoEntry)
       case Some(c) => Ok(SetCommand(u, c.id, on)))
    case Sub(name, sub) =>
      match Lookup(table, name)
      case None => Err(NoEntry)
      case Some(c) =>
        if sub == "" then Err(Invalid)
        else if c.id < BITS && u.bits[c.id] then Ok(u)
        else Ok(AddSub(u, c.id, sub))
  }

  // A rule list applied in order; a rule that is refused changes nothing.
  function SetAll(table: seq<Command>, categories: nat, u: User, rules: seq<Rule>): (r: User)
    requires |u.bits| == BITS
    ensures |r.bits| == BITS
  {
    if rules == [] then u else
      var before := SetAll(table, categories, u, rules[..|rules| - 1]);
      match SetUser(table, categories, before, rules[|rules| - 1])
      case Ok(v) => v
      case Err(_) => before
  }

  // Distinct names and ids, none of them the reserved one.
  ghost predicate TableOk(table: seq<Command>) {
    && (forall c | c in table :: c.id < FUTURE)
    && (forall i, j | 0 <= i < |table| && 0 <= j < |table| && i != j ::
          table[i].id != table[j].id && !SameName(table[i].name, table[j].name))
  }

  predicate IsId(table: seq<Command>, id: nat) { exists c | c in table :: c.id == id }

  ghost predicate SubsOk(subs: seq<string>) {
    && subs != []
    && (forall s | s in subs :: s != "")
    && (forall i, j | 0 <= i < j < |subs| :: !SameName(subs[i], subs[j]))
  }

  // What all users have in common.
  ghost predicate UserOk(table: seq<Command>, u: User) {
    && |u.bits| == BITS
    // bits without a command follow the reserved bit
    && (forall i | 0 <= i < BITS && !IsId(table, i) :: u.bits[i] == u.bits[FUTURE])
    // only commands that are off have subcommands
    && (forall id | id in u.subs :: IsId(table, id) && id < BITS && !u.bits[id] && SubsOk(u.subs[id]))
    && (u.all ==> forall i | 0 <= i < BITS :: u.bits[i])
  }

  lemma SetUserOk(table: seq<Command>, categories: nat, u: User, rule: Rule)
    requires TableOk(table) && UserOk(table, u)
    ensures SetUser(table, categories, u, rule).Ok? ==> UserOk(table, SetUser(table, categories, u, rule).user)
  {
    assert |u.bits| == BITS;
    hide UserOk, TableOk, SetCategory, SetCommand, AddSub;
    match rule
    case Everything(on) =>
      EverythingOk(table, on);
    case Category(on, c) =>
      SetCategoryOk(table, u, c, on);
    case Single(on, name) =>
      var f := Lookup(table, name);
      if f.Some? {
        SetCommandOk(table, u, f.value, on);
      }
    case Sub(name, sub) =>
      var f := Lookup(table, name);
      if f.Some? && sub != "" && !(f.value.id < BITS && u.bits[f.value.id]) {
        AddSubUserOk(table, u, f.value, sub);
      }
  }

  lemma EverythingOk(table: seq<Command>, on: bool)
    ensures UserOk(table, User(seq(BITS, _ => on), map[], on))
  {}

  lemma SetCommandOk(table: seq<Command>, u: User, c: Command, on: bool)
    requires TableOk(table) && UserOk(table, u) && c in table
    ensures UserOk(table, SetCommand(u, c.id, on))
  {
    hide SubsOk, SameName;
    assert IsId(table, c.id);
  }

  lemma AddSubUserOk(table: seq<Command>, u: User, c: Command, sub: string)
    requires TableOk(table) && UserOk(table, u) && c in table && sub != ""
    requires !(c.id < BITS && u.bits[c.id])
    ensures UserOk(table, AddSub(u, c.id, sub))
  {
    hide SubsOk, SameName, Has;
    assert IsId(table, c.id);
    var listed := if c.id in u.subs then u.subs[c.id] else [];
    if !Has(listed, sub) {
      AddSubOk(listed, sub);
    }
  }

  lemma SetCategoryOk(table: seq<Command>, u: User, c: nat, on: bool)
    requires TableOk(table) && UserOk(table, u)
    ensures UserOk(table, SetCategory(u, table, c, on))
  {
    hide SameName, SubsOk;
    assert forall i | i in Ids(table, c) :: IsId(table, i);
    assert !IsId(table, FUTURE);
  }

  lemma AddSubOk(subs: seq<string>, sub: string)
    requires subs == [] || SubsOk(subs)
    requires sub != "" && !Has(subs, sub)
    ensures SubsOk(subs + [sub])
  {
    hide SameName;
    forall s | s in subs ensures !SameName(s, sub) {}
  }

  /** Every user reached by any rule list from a blank one. */
  lemma {:induction false} ReachedOk(table: seq<Command>, categories: nat, rules: seq<Rule>)
    requires TableOk(table)
    ensures UserOk(table, SetAll(table, categories, Blank(), rules))
  {
    if rules != [] {
      ReachedOk(table, categories, rules[..|rules| - 1]);
      SetUserOk(table, categories, SetAll(table, categories, Blank(), rules[..|rules| - 1]), rules[|rules| - 1]);
    }
  }
}
