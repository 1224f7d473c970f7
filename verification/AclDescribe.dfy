/** Describing a user's permissions as a rule list (acl.c), and why the list gives them back. */
module AclDescribe {
  import opened Common
  import opened AclRules

  const INT_MAX: nat := 0x7fff_ffff

  // Commands of a category whose bit is `on`.
  function CountBits(table: seq<Command>, bits: seq<bool>, category: nat, on: bool): nat {
    if table == [] then 0 else
      CountBits(table[..|table| - 1], bits, category, on)
      + if category in table[|table| - 1].categories && Bit(bits, table[|table| - 1].id) == on then 1 else 0
  }

  predicate Bit(bits: seq<bool>, id: nat) { id < |bits| && bits[id] }

  lemma {:induction false} CountWitness(table: seq<Command>, bits: seq<bool>, category: nat, on: bool)
    requires CountBits(table, bits, category, on) > 0
    ensures exists c | c in table :: Bit(bits, c.id) == on
  {
    var k := |table| - 1;
    if category in table[k].categories && Bit(bits, table[k].id) == on {
      assert table[k] in table;
    } else {
      CountWitness(table[..k], bits, category, on);
    }
  }

  /** The command part of struct user. */
  class Permissions {
    const bits: array<bool>
    var subs: map<nat, seq<string>>
    var all: bool

    ghost predicate Valid() { bits.Length == BITS }

    ghost function View(): User
      reads this, bits
    {
      User(bits[..], subs, all)
    }

    constructor ()
      ensures Valid() && fresh(bits) && View() == Blank()
    {
      bits := new bool[BITS](_ => false);
      subs, all := map[], false;
    }

    method SetCommandBit(id: nat, on: bool)
      requires Valid()
      modifies this`all, bits
      ensures View() == SetBit(old(View()), id, on)
    {
      if id >= BITS {
        return;
      }
      bits[id] := on;
      if !on {
        all := false;
      }
    }

    method SetCategoryBits(table: seq<Command>, category: nat, on: bool)
      requires Valid()
      modifies this, bits
      ensures View() == SetCategory(old(View()), table, category, on)
    {
      ghost var u := View();
      CategoryNone(u, category, on);
      for k := 0 to |table|
        invariant View() == SetCategory(u, table[..k], category, on)
      {
        var c := table[k];
        CategoryStep(u, table, k, category, on);
        if !c.fromModule && category in c.categories {
          SetCommandBit(c.id, on);
          subs := subs - {c.id};
        }
      }
      assert table[..|table|] == table;
    }

    method AddAllowedSubcommand(id: nat, sub: string)
      modifies this`subs
      ensures View() == AddSub(old(View()), id, sub)
    {
      var listed := if id in subs then subs[id] else [];
      for k := 0 to |listed|
        invariant forall i | 0 <= i < k :: !SameName(listed[i], sub)
      {
        if SameName(listed[k], sub) {
          return;
        }
      }
      subs := subs[id := listed + [sub]];
    }

    method Set(table: seq<Command>, categories: nat, rule: Rule) returns (ok: bool)
      requires Valid()
      modifies this, bits
      ensures var r := SetUser(table, categories, old(View()), rule);
              ok == r.Ok? && View() == if r.Ok? then r.user else old(View())
    {
      ok := true;
      match rule
      case Everything(on) =>
        for i := 0 to BITS
          invariant forall j | 0 <= j < i :: bits[j] == on
        {
          bits[i] := on;
        }
        assert bits[..] == seq(BITS, _ => on);
        all, subs := on, map[];
      case Category(on, c) =>
        if c >= categories {
          return false;
        }
        SetCategoryBits(table, c, on);
      case Single(on, name) =>
        match Lookup(table, name) {
          case None => return false;
          case Some(c) =>
            SetCommandBit(c.id, on);
            subs := subs - {c.id};
        }
      case Sub(name, sub) =>
        match Lookup(table, name) {
          case None => return false;
          case Some(c) =>
            if sub == "" {
              return false;
            }
            if !(c.id < BITS && bits[c.id]) {
              AddAllowedSubcommand(c.id, sub);
            }
        }
    }

    method CountCategoryBits(table: seq<Command>, category: nat) returns (on: nat, off: nat)
      requires Valid()
      ensures on == CountBits(table, bits[..], category, true)
      ensures off == CountBits(table, bits[..], category, false)
    {
      on, off := 0, 0;
      for k := 0 to |table|
        invariant on == CountBits(table[..k], bits[..], category, true)
        invariant off == CountBits(table[..k], bits[..], category, false)
      {
        assert table[..k + 1][..k] == table[..k];
        var c := table[k];
        if category in c.categories {
          if c.id < BITS && bits[c.id] {
            on := on + 1;
          } else {
            off := off + 1;
          }
        }
      }
      assert table[..|table|] == table;
    }
  }

  lemma CategoryNone(u: User, category: nat, on: bool)
    requires |u.bits| == BITS
    ensures SetCategory(u, [], category, on) == u
  {}

  // One more command of the table.
  lemma CategoryStep(u: User, table: seq<Command>, k: nat, category: nat, on: bool)
    requires |u.bits| == BITS && k < |table|
    ensures var v := SetCategory(u, table[..k], category, on);
            SetCategory(u, table[..k + 1], category, on) ==
              if !table[k].fromModule && category in table[k].categories
              then SetBit(v, table[k].id, on).(subs := v.subs - {table[k].id}) else v
  {
    var c := table[k];
    assert table[..k + 1] == table[..k] + [c];
    var extra := if !c.fromModule && category in c.categories then {c.id} else {};
    assert Ids(table[..k + 1], category) == Ids(table[..k], category) + extra;
    var v, w := SetCategory(u, table[..k], category, on), SetCategory(u, table[..k + 1], category, on);
    assert w.subs == v.subs - extra;
  }

  // The user a rule list makes out of a blank one.
  function Rebuilt(table: seq<Command>, categories: nat, rules: seq<Rule>): (u: User)
    ensures |u.bits| == BITS
  {
    SetAll(table, categories, Blank(), rules)
  }

  lemma RebuiltNext(table: seq<Command>, categories: nat, rules: seq<Rule>, rule: Rule)
    ensures Rebuilt(table, categories, rules + [rule]) ==
              match SetUser(table, categories, Rebuilt(table, categories, rules), rule)
              case Ok(v) => v
              case Err(_) => Rebuilt(table, categories, rules)
  {
    assert (rules + [rule])[..|rules|] == rules;
  }

  // Rules ACLSetUser does not refuse.
  predicate Understood(table: seq<Command>, categories: nat, rule: Rule) {
    match rule
    case Everything(_) => true
    case Category(_, c) => c < categories
    case Single(_, name) => Lookup(table, name).Some?
    case Sub(name, sub) => Lookup(table, name).Some? && sub != ""
  }

  lemma UnderstoodIsAccepted(table: seq<Command>, categories: nat, u: User, rule: Rule)
    requires |u.bits| == BITS
    ensures SetUser(table, categories, u, rule).Ok? <==> Understood(table, categories, rule)
  {}

  ghost predicate AllUnderstood(table: seq<Command>, categories: nat, rules: seq<Rule>) {
    forall r | r in rules :: Understood(table, categories, r)
  }

  // After +@all or -@all and some categories: the reserved bit is right, nothing has subcommands.
  ghost predicate Approximates(table: seq<Command>, u: User, v: User) {
    && UserOk(table, u) && UserOk(table, v)
    && v.subs == map[] && v.bits[FUTURE] == u.bits[FUTURE]
    && (v.all || exists i | 0 <= i < BITS :: !u.bits[i])
  }

  function Same(table: seq<Command>, bits: seq<bool>, additive: bool, j: nat): nat {
    CountBits(table, bits, j, additive)
  }

  function Diff(table: seq<Command>, bits: seq<bool>, additive: bool, j: nat): nat {
    CountBits(table, bits, j, !additive)
  }

  // A category worth a rule: it fixes more commands than it breaks.
  predicate Useful(table: seq<Command>, bits: seq<bool>, additive: bool, j: nat) {
    Same(table, bits, additive, j) > Diff(table, bits, additive, j) && Diff(table, bits, additive, j) <= INT_MAX
  }

  /** The best category not applied yet: fewest differences, then most in common; -1 if none helps. */
  method BestCategory(
    table: seq<Command>, categories: nat, temp: Permissions, applied: seq<bool>, additive: bool) returns (best: int)
    requires temp.Valid() && |applied| == categories
    ensures -1 <= best < categories
    ensures best == -1 ==>
              forall j | 0 <= j < categories && !applied[j] :: !Useful(table, temp.bits[..], additive, j)
    ensures best >= 0 ==> !applied[best] && Useful(table, temp.bits[..], additive, best)
    ensures best >= 0 ==>
              forall j | 0 <= j < categories && !applied[j] && Useful(table, temp.bits[..], additive, j) ::
                var bits := temp.bits[..];
                || Diff(table, bits, additive, best) < Diff(table, bits, additive, j)
                || (Diff(table, bits, additive, best) == Diff(table, bits, additive, j)
                    && Same(table, bits, additive, best) >= Same(table, bits, additive, j))
  {
    best := -1;
    var minDiff, maxSame := INT_MAX, 0;
    ghost var bits := temp.bits[..];
    for j := 0 to categories
      invariant -1 <= best < j
      invariant best == -1 ==> minDiff == INT_MAX && maxSame == 0
      invariant best == -1 ==> forall i | 0 <= i < j && !applied[i] :: !Useful(table, bits, additive, i)
      invariant best >= 0 ==> !applied[best] && Useful(table, bits, additive, best)
      invariant best >= 0 ==> minDiff == Diff(table, bits, additive, best) && maxSame == Same(table, bits, additive, best)
      invariant forall i | 0 <= i < j && !applied[i] && Useful(table, bits, additive, i) ::
                  || minDiff < Diff(table, bits, additive, i)
                  || (minDiff == Diff(table, bits, additive, i) && maxSame >= Same(table, bits, additive, i))
    {
      if applied[j] {
        continue;
      }
      var on, off := temp.CountCategoryBits(table, j);
      var diff := if additive then off else on;
      var same := if additive then on else off;
      if same > diff && (diff < minDiff || (diff == minDiff && same > maxSame)) {
        best, minDiff, maxSame := j, diff, same;
      }
    }
  }

  // One more category rule keeps the approximation.
  lemma ApproximatesCategory(table: seq<Command>, u: User, v: User, j: nat, on: bool)
    requires TableOk(table) && Approximates(table, u, v)
    requires on || exists i | 0 <= i < BITS :: !u.bits[i]
    ensures Approximates(table, u, SetCategory(v, table, j, on))
  {
    hide SameName, SubsOk;
    SetCategoryOk(table, v, j, on);
    assert forall c | c in table :: c.id < FUTURE;
    assert FUTURE !in Ids(table, j);
  }

  // The scratch user only ever moves towards "everything is as the starting rule made it".
  ghost predicate Towards(additive: bool, u: seq<bool>, temp: seq<bool>) {
    |temp| == |u| && forall i | 0 <= i < |u| && u[i] != additive :: temp[i] != additive
  }

  // A useful category of the scratch user names a command whose bit the starting rule got wrong.
  lemma UsefulMeansOff(table: seq<Command>, u: User, temp: seq<bool>, j: nat)
    requires TableOk(table) && UserOk(table, u) && Towards(false, u.bits, temp)
    requires Useful(table, temp, false, j)
    ensures exists i | 0 <= i < BITS :: !u.bits[i]
  {
    CountWitness(table, temp, j, false);
    var c :| c in table && !Bit(temp, c.id);
    assert c.id < BITS && !u.bits[c.id];
  }

  /** The greedy phase: category rules until none helps any more. */
  method AddCategories(
    table: seq<Command>, categories: nat, u: Permissions, fake: Permissions, additive: bool, start: seq<Rule>)
    returns (rules: seq<Rule>)
    requires TableOk(table) && u.Valid() && fake.Valid() && u != fake && u.bits != fake.bits
    requires fake.View() == Rebuilt(table, categories, start) && Approximates(table, u.View(), fake.View())
    requires additive == !u.bits[FUTURE] && AllUnderstood(table, categories, start)
    modifies fake, fake.bits
    ensures start <= rules && AllUnderstood(table, categories, rules)
    ensures fake.View() == Rebuilt(table, categories, rules) && Approximates(table, u.View(), fake.View())
  {
    hide UserOk, Approximates, TableOk, CountBits, SetUser, SetCategory, SetAll;
    rules := start;
    var temp := new Permissions();
    CopyBits(u, temp);
    var applied := seq(categories, _ => false);
    ghost var left := CountFalse(applied);
    ghost var goal := u.View();
    while true
      invariant |applied| == categories && left == CountFalse(applied) && start <= rules
      invariant AllUnderstood(table, categories, rules)
      invariant fake.View() == Rebuilt(table, categories, rules) && u.View() == goal
      invariant Approximates(table, goal, fake.View())
      invariant temp.Valid() && fresh(temp) && fresh(temp.bits)
      invariant Towards(additive, goal.bits, temp.bits[..])
      decreases left
    {
      var best := BestCategory(table, categories, temp, applied, additive);
      if best == -1 {
        return;
      }
      Emit(table, categories, goal, fake.View(), temp.View(), rules, best, additive);
      var ok := fake.Set(table, categories, Category(additive, best));
      ok := temp.Set(table, categories, Category(!additive, best));
      rules := rules + [Category(additive, best)];
      CountFalseSet(applied, best);
      applied := applied[best := true];
      left := left - 1;
    }
  }

  method CopyBits(u: Permissions, temp: Permissions)
    requires u.Valid() && temp.Valid() && u.bits != temp.bits
    modifies temp.bits
    ensures temp.bits[..] == u.bits[..]
  {
    for i := 0 to BITS
      invariant forall j | 0 <= j < i :: temp.bits[j] == u.bits[j]
    {
      temp.bits[i] := u.bits[i];
    }
  }

  // What emitting the rule for category `best` does to the rebuilt and to the scratch user.
  lemma Emit(
    table: seq<Command>, categories: nat, u: User, v: User, temp: User, rules: seq<Rule>, best: nat, additive: bool)
    requires TableOk(table) && v == Rebuilt(table, categories, rules) && Approximates(table, u, v)
    requires best < categories && |u.bits| == |temp.bits| == BITS && additive == !u.bits[FUTURE]
    requires Towards(additive, u.bits, temp.bits) && Useful(table, temp.bits, additive, best)
    ensures SetUser(table, categories, v, Category(additive, best)) == Ok(SetCategory(v, table, best, additive))
    ensures Rebuilt(table, categories, rules + [Category(additive, best)]) == SetCategory(v, table, best, additive)
    ensures Approximates(table, u, SetCategory(v, table, best, additive))
    ensures var t := SetUser(table, categories, temp, Category(!additive, best));
            t.Ok? && Towards(additive, u.bits, t.user.bits)
  {
    hide UserOk, TableOk, CountBits, SetAll, Rebuilt;
    RebuiltNext(table, categories, rules, Category(additive, best));
    if !additive {
      UsefulMeansOff(table, u, temp.bits, best);
    }
    ApproximatesCategory(table, u, v, best, additive);
  }

  function CountFalse(a: seq<bool>): nat {
    if a == [] then 0 else (if a[0] then 0 else 1) + CountFalse(a[1..])
  }

  lemma {:induction false} CountFalseSet(a: seq<bool>, k: nat)
    requires k < |a| && !a[k]
    ensures CountFalse(a[k := true]) == CountFalse(a) - 1 && CountFalse(a) > 0
  {
    if k > 0 {
      assert a[k := true][1..] == a[1..][k - 1 := true];
      CountFalseSet(a[1..], k - 1);
    } else {
      assert a[0 := true][1..] == a[1..];
    }
  }

  // The final pass has dealt with the first `k` commands of the table.
  ghost predicate Fixed(table: seq<Command>, u: User, v: User, k: nat)
    requires k <= |table|
  {
    && |u.bits| == |v.bits| == BITS
    && (forall i | 0 <= i < BITS && !IsId(table, i) :: v.bits[i] == u.bits[i])
    && (forall i | 0 <= i < k :: Bit(v.bits, table[i].id) == Bit(u.bits, table[i].id))
    && (forall id | id in v.subs :: IsId(table[..k], id) && id in u.subs && v.subs[id] == u.subs[id])
    && (forall id | id in u.subs && IsId(table[..k], id) :: id in v.subs)
    && (v.all || exists i | 0 <= i < BITS :: !u.bits[i])
  }

  lemma FixedStart(table: seq<Command>, u: User, v: User)
    requires Approximates(table, u, v)
    ensures Fixed(table, u, v, 0)
  {
    hide SubsOk;
  }

  lemma LookupSelf(table: seq<Command>, k: nat)
    requires TableOk(table) && k < |table|
    ensures Lookup(table, table[k].name) == Some(table[k])
  {
    hide SameName;
    assert SameName(table[k].name, table[k].name) by {
      SameNameSelf(table[k].name);
    }
    var c := Lookup(table, table[k].name).value;
    var i :| 0 <= i < |table| && table[i] == c;
    SameNameSym(c.name, table[k].name);
  }

  lemma SameNameSelf(a: string)
    ensures SameName(a, a)
  {}

  lemma SameNameSym(a: string, b: string)
    requires SameName(a, b)
    ensures SameName(b, a)
  {}

  // Once the bit of command `k` is right and its subcommands are `subs`, the next command is due.
  lemma FixedNext(table: seq<Command>, u: User, v: User, k: nat, w: User)
    requires TableOk(table) && k < |table| && Fixed(table, u, v, k) && UserOk(table, u)
    requires var id := table[k].id;
             && |w.bits| == BITS && Bit(w.bits, id) == Bit(u.bits, id)
             && (forall i | 0 <= i < BITS && i != id :: w.bits[i] == v.bits[i])
             && (w.all || exists i | 0 <= i < BITS :: !u.bits[i])
             && w.subs == if id in u.subs then v.subs[id := u.subs[id]] else v.subs - {id}
    ensures Fixed(table, u, w, k + 1)
  {
    hide SameName, SubsOk, IsId, UserOk;
    var id := table[k].id;
    IdsGrow(table, k);
    forall i | 0 <= i < BITS && !IsId(table, i) ensures w.bits[i] == u.bits[i] {
      assert i != id;
    }
    forall i | 0 <= i < k + 1 ensures Bit(w.bits, table[i].id) == Bit(u.bits, table[i].id) {
      if i < k {
        assert table[i].id != id && table[i] in table;
      }
    }
    forall x | x in w.subs ensures IsId(table[..k + 1], x) && x in u.subs && w.subs[x] == u.subs[x] {
      if x != id {
        assert x in v.subs && IsId(table[..k], x);
      }
    }
    forall x | x in u.subs && IsId(table[..k + 1], x) ensures x in w.subs {
      if x != id {
        assert IsId(table[..k], x) && x in v.subs;
      }
    }
  }

  lemma IdsGrow(table: seq<Command>, k: nat)
    requires k < |table|
    ensures IsId(table, table[k].id)
    ensures forall x: nat :: IsId(table[..k + 1], x) <==> IsId(table[..k], x) || x == table[k].id
  {
    var c := table[k];
    assert table[..k + 1] == table[..k] + [c];
    assert c in table && c in table[..k + 1];
    forall x: nat ensures IsId(table[..k + 1], x) <==> IsId(table[..k], x) || x == c.id {}
  }

  // The last pass fixes the bit of one command.
  lemma SingleFixes(table: seq<Command>, categories: nat, u: User, rules: seq<Rule>, k: nat)
    requires TableOk(table) && UserOk(table, u) && k < |table|
    requires Fixed(table, u, Rebuilt(table, categories, rules), k)
    ensures var c, v := table[k], Rebuilt(table, categories, rules);
            Rebuilt(table, categories, rules + [Single(Bit(u.bits, c.id), c.name)])
            == SetCommand(v, c.id, Bit(u.bits, c.id))
  {
    hide SameName, SubsOk, Rebuilt, Fixed, UserOk;
    LookupSelf(table, k);
    RebuiltNext(table, categories, rules, Single(Bit(u.bits, table[k].id), table[k].name));
  }

  // Subcommand rules are appended in the user's order and none is taken for a duplicate.
  lemma SubAdds(table: seq<Command>, categories: nat, rules: seq<Rule>, k: nat, subs: seq<string>, j: nat)
    requires TableOk(table) && k < |table| && SubsOk(subs) && j < |subs|
    requires var v, id := Rebuilt(table, categories, rules), table[k].id;
             && !Bit(v.bits, id)
             && (if j == 0 then id !in v.subs else id in v.subs && v.subs[id] == subs[..j])
    ensures var v, id := Rebuilt(table, categories, rules), table[k].id;
            Rebuilt(table, categories, rules + [Sub(table[k].name, subs[j])])
            == v.(subs := v.subs[id := subs[..j + 1]])
  {
    hide SameName, Rebuilt, TableOk;
    LookupSelf(table, k);
    RebuiltNext(table, categories, rules, Sub(table[k].name, subs[j]));
    assert subs[..j + 1] == subs[..j] + [subs[j]];
    assert subs[j] in subs;
    forall s | s in subs[..j] ensures !SameName(s, subs[j]) {
      var i :| 0 <= i < j && subs[i] == s;
    }
  }

  method EmitSubs(table: seq<Command>, categories: nat, start: seq<Rule>, k: nat, subs: seq<string>)
    returns (rules: seq<Rule>)
    requires TableOk(table) && k < |table| && SubsOk(subs) && AllUnderstood(table, categories, start)
    requires var v := Rebuilt(table, categories, start); !Bit(v.bits, table[k].id) && table[k].id !in v.subs
    ensures start <= rules && AllUnderstood(table, categories, rules)
    ensures var v := Rebuilt(table, categories, start);
            Rebuilt(table, categories, rules) == v.(subs := v.subs[table[k].id := subs])
  {
    hide SameName, Rebuilt, TableOk;
    rules := start;
    var c := table[k];
    ghost var v := Rebuilt(table, categories, start);
    for j := 0 to |subs|
      invariant start <= rules && AllUnderstood(table, categories, rules)
      invariant Rebuilt(table, categories, rules) == v.(subs := if j == 0 then v.subs else v.subs[c.id := subs[..j]])
    {
      SubAdds(table, categories, rules, k, subs, j);
      LookupSelf(table, k);
      assert subs[j] in subs;
      rules := rules + [Sub(c.name, subs[j])];
    }
    assert subs[..|subs|] == subs;
  }

  /** One command of the final pass: its bit, then its subcommands. */
  method FixCommand(
    table: seq<Command>, categories: nat, u: Permissions, fake: Permissions, start: seq<Rule>, k: nat)
    returns (rules: seq<Rule>)
    requires TableOk(table) && u.Valid() && fake.Valid() && u != fake && u.bits != fake.bits && k < |table|
    requires UserOk(table, u.View()) && fake.bits[..] == Rebuilt(table, categories, start).bits
    requires Fixed(table, u.View(), Rebuilt(table, categories, start), k) && AllUnderstood(table, categories, start)
    modifies fake, fake.bits
    ensures start <= rules && AllUnderstood(table, categories, rules)
    ensures fake.bits[..] == Rebuilt(table, categories, rules).bits
    ensures Fixed(table, u.View(), Rebuilt(table, categories, rules), k + 1)
  {
    hide SameName, SubsOk, SetAll, TableOk, UserOk, Fixed, Rebuilt;
    rules := start;
    var c := table[k];
    ghost var goal, v := u.View(), Rebuilt(table, categories, start);
    IdInRange(table, k);
    var userBit, fakeBit := u.bits[c.id], fake.bits[c.id];
    if userBit != fakeBit {
      SingleFixes(table, categories, goal, rules, k);
      LookupSelf(table, k);
      rules := rules + [Single(userBit, c.name)];
      fake.SetCommandBit(c.id, userBit);
    }
    ghost var w := Rebuilt(table, categories, rules);
    NotYet(table, goal, v, k);
    assert w.subs == v.subs && fake.bits[..] == w.bits && Bit(w.bits, c.id) == userBit;
    if !userBit && c.id in u.subs {
      SubsNonEmpty(table, goal, c.id);
      rules := EmitSubs(table, categories, rules, k, u.subs[c.id]);
    }
    FixedNext(table, goal, v, k, Rebuilt(table, categories, rules));
  }

  lemma IdInRange(table: seq<Command>, k: nat)
    requires TableOk(table) && k < |table|
    ensures table[k].id < FUTURE
  {}

  // A command not reached yet has no subcommands in the rebuilt user.
  lemma NotYet(table: seq<Command>, u: User, v: User, k: nat)
    requires TableOk(table) && k < |table| && Fixed(table, u, v, k) && UserOk(table, u)
    ensures table[k].id !in v.subs && v.subs - {table[k].id} == v.subs
    ensures table[k].id in u.subs ==> !Bit(u.bits, table[k].id)
    ensures v.all || exists i | 0 <= i < BITS :: !u.bits[i]
  {
    hide SameName;
    assert !IsId(table[..k], table[k].id);
  }

  lemma SubsNonEmpty(table: seq<Command>, u: User, id: nat)
    requires UserOk(table, u) && id in u.subs
    ensures u.subs[id] != [] && SubsOk(u.subs[id])
  {}

  // When the final pass is over, the two users agree.
  lemma FixedAll(table: seq<Command>, u: User, v: User)
    requires TableOk(table) && UserOk(table, u) && UserOk(table, v) && Fixed(table, u, v, |table|)
    ensures v.bits == u.bits && v.subs == u.subs
    ensures v.all <==> forall i | 0 <= i < BITS :: u.bits[i]
  {
    hide SameName, SubsOk;
    assert table[..|table|] == table;
    forall i | 0 <= i < BITS ensures v.bits[i] == u.bits[i] {
      if IsId(table, i) {
        var c :| c in table && c.id == i;
        var k :| 0 <= k < |table| && table[k] == c;
        assert Bit(v.bits, table[k].id) == Bit(u.bits, table[k].id);
      }
    }
    assert v.subs.Keys == u.subs.Keys;
  }

  /** For every user reachable through ACLSetUser, the described rules applied in order to a blank
      user give back the same command bits and the same subcommands; the bitmap comparison at the end
      never fails. The ALLCOMMANDS flag is given back exactly when the user has it or lacks some bit. */
  method DescribeUserCommandRules(table: seq<Command>, categories: nat, u: Permissions) returns (rules: seq<Rule>)
    requires TableOk(table) && u.Valid() && UserOk(table, u.View())
    ensures Rebuilt(table, categories, rules).bits == u.View().bits
    ensures Rebuilt(table, categories, rules).subs == u.View().subs
    ensures Rebuilt(table, categories, rules).all <==> forall i | 0 <= i < BITS :: u.View().bits[i]
    ensures Rebuilt(table, categories, rules).all == u.View().all <==>
              (u.View().all || exists i | 0 <= i < BITS :: !u.View().bits[i])
    ensures rules != [] && rules[0] == Everything(u.bits[FUTURE]) && AllUnderstood(table, categories, rules)
  {
    hide SameName, SubsOk, SetAll, TableOk;
    var fake := new Permissions();
    var additive := !u.bits[FUTURE];
    ghost var goal := u.View();
    rules := [Everything(!additive)];
    RebuiltNext(table, categories, [], Everything(!additive));
    assert [] + [Everything(!additive)] == rules;
    EverythingOk(table, !additive);
    var ok := fake.Set(table, categories, Everything(!additive));
    assert fake.View() == Rebuilt(table, categories, rules);
    rules := AddCategories(table, categories, u, fake, additive, rules);
    FixedStart(table, goal, Rebuilt(table, categories, rules));
    for k := 0 to |table|
      invariant u.View() == goal && fresh(fake) && fresh(fake.bits) && fake.Valid()
      invariant rules != [] && rules[0] == Everything(!additive) && AllUnderstood(table, categories, rules)
      invariant fake.bits[..] == Rebuilt(table, categories, rules).bits
      invariant Fixed(table, goal, Rebuilt(table, categories, rules), k)
    {
      rules := FixCommand(table, categories, u, fake, rules, k);
    }
    ReachedOk(table, categories, rules);
    FixedAll(table, goal, Rebuilt(table, categories, rules));
    assert fake.bits[..] == u.bits[..]; // otherwise the server panics
  }

  /** A reachable user whose flag is not given back: everything allowed, one command taken away and given back. */
  lemma FlagLost(table: seq<Command>, categories: nat, k: nat) returns (u: User)
    requires TableOk(table) && k < |table|
    ensures exists rules :: u == SetAll(table, categories, Blank(), rules)
    ensures !u.all && forall i | 0 <= i < BITS :: u.bits[i]
  {
    hide SetAll, SameName;
    var name := table[k].name;
    LookupSelf(table, k);
    var r1: seq<Rule> := [] + [Everything(true)];
    var r2 := r1 + [Single(false, name)];
    var r3 := r2 + [Single(true, name)];
    RebuiltNext(table, categories, [], Everything(true));
    RebuiltNext(table, categories, r1, Single(false, name));
    RebuiltNext(table, categories, r2, Single(true, name));
    u := Rebuilt(table, categories, r3);
  }
}
