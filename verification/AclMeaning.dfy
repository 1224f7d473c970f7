/** What a rule list means: which commands and subcommands the user may run afterwards (acl.c). */
module AclMeaning {
  import opened Common
  import opened AclRules
  import opened AclDescribe

  // The user after one rule; a rule that is refused changes nothing.
  function After(table: seq<Command>, categories: nat, u: User, rule: Rule): (v: User)
    requires |u.bits| == BITS
    ensures |v.bits| == BITS
  {
    match SetUser(table, categories, u, rule)
    case Ok(v) => v
    case Err(_) => u
  }

  lemma LookupIs(table: seq<Command>, c: Command, name: string)
    requires TableOk(table) && c in table && SameName(c.name, name)
    ensures Lookup(table, name) == Some(c)
  {
    var k :| 0 <= k < |table| && table[k] == c;
    var d := Lookup(table, name).value;
    var i :| 0 <= i < |table| && table[i] == d;
  }

  /** +command and -command, for any user: the bit of the command and no other, and none of its
      subcommands stays listed, whether or not the bit changed. */
  lemma SingleEffect(table: seq<Command>, categories: nat, u: User, c: Command, name: string, on: bool)
    requires TableOk(table) && |u.bits| == BITS && c in table && SameName(c.name, name)
    ensures var r := SetUser(table, categories, u, Single(on, name));
            && r.Ok? && |r.user.bits| == BITS
            && Bit(r.user.bits, c.id) == on && c.id !in r.user.subs
            && (forall i | 0 <= i < BITS && i != c.id :: r.user.bits[i] == u.bits[i])
            && (forall id | id != c.id :: id in r.user.subs <==> id in u.subs)
            && (forall id | id in r.user.subs :: r.user.subs[id] == u.subs[id])
            && r.user.all == (u.all && on)
  {
    hide SameName;
    LookupIs(table, c, name);
    assert c.id < FUTURE;
  }

  /** +command|sub, for any user: of a command that is off the subcommand is listed, behind those
      listed before unless it is one of them; a command that is on stays as it is. */
  lemma SubEffect(table: seq<Command>, categories: nat, u: User, c: Command, name: string, sub: string)
    requires TableOk(table) && |u.bits| == BITS && c in table && SameName(c.name, name) && sub != ""
    ensures var r := SetUser(table, categories, u, Sub(name, sub));
            var listed := if c.id in u.subs then u.subs[c.id] else [];
            && r.Ok? && r.user.bits == u.bits && r.user.all == u.all
            && (Bit(u.bits, c.id) ==> r.user == u)
            && (!Bit(u.bits, c.id) ==>
                  && c.id in r.user.subs && Has(r.user.subs[c.id], sub)
                  && r.user.subs[c.id] == (if exists s | s in listed :: SameName(s, sub) then listed else listed + [sub]))
            && (forall id | id != c.id :: id in r.user.subs <==> id in u.subs)
            && (forall id | id in r.user.subs && id != c.id :: r.user.subs[id] == u.subs[id])
  {
    LookupIs(table, c, name);
    SameNameSelf(sub);
    hide SameName;
    assert c.id < FUTURE;
    var listed := if c.id in u.subs then u.subs[c.id] else [];
    assert sub in listed + [sub];
  }

  /** +@category and -@category, for any user: the commands of the category that are not from a
      module, and nothing else. */
  lemma CategoryEffect(table: seq<Command>, categories: nat, u: User, category: nat, on: bool, c: Command)
    requires TableOk(table) && |u.bits| == BITS && c in table && category < categories
    ensures var r := SetUser(table, categories, u, Category(on, category));
            var covered := !c.fromModule && category in c.categories;
            && r.Ok? && |r.user.bits| == BITS
            && Bit(r.user.bits, c.id) == (if covered then on else Bit(u.bits, c.id))
            && (c.id in r.user.subs <==> c.id in u.subs && !covered)
            && (c.id in r.user.subs ==> r.user.subs[c.id] == u.subs[c.id])
  {
    hide SameName;
    assert c.id < FUTURE;
    if c.id in Ids(table, category) {
      var d :| d in table && !d.fromModule && category in d.categories && d.id == c.id;
      SameCommand(table, c, d);
    }
  }

  lemma SameCommand(table: seq<Command>, c: Command, d: Command)
    requires TableOk(table) && c in table && d in table && c.id == d.id
    ensures c == d
  {
    hide SameName;
    var i :| 0 <= i < |table| && table[i] == c;
    var j :| 0 <= j < |table| && table[j] == d;
  }

  // Rules that decide about a command as a whole.
  predicate Covers(categories: nat, rule: Rule, c: Command) {
    match rule
    case Everything(_) => true
    case Category(_, category) => category < categories && !c.fromModule && category in c.categories
    case Single(_, name) => SameName(c.name, name)
    case Sub(_, _) => false
  }

  // Rules that name a subcommand.
  predicate Names(rule: Rule, c: Command, sub: string) {
    rule.Sub? && SameName(c.name, rule.name) && rule.sub != "" && SameName(rule.sub, sub)
  }

  predicate Listed(u: User, id: nat, sub: string) { id in u.subs && Has(u.subs[id], sub) }

  lemma StepBit(table: seq<Command>, categories: nat, u: User, rule: Rule, c: Command)
    requires TableOk(table) && |u.bits| == BITS && c in table
    ensures Bit(After(table, categories, u, rule).bits, c.id)
         == if Covers(categories, rule, c) then rule.on else Bit(u.bits, c.id)
  {
    hide SetCategory, SetCommand, AddSub, SameName, Ids, TableOk;
    match rule
    case Everything(on) =>
      Below(table, c);
    case Category(on, category) =>
      if category < categories {
        CategoryEffect(table, categories, u, category, on, c);
      }
    case Single(on, name) =>
      SingleOther(table, categories, u, c, name, on);
    case Sub(name, sub) =>
      SubKeepsBits(table, categories, u, name, sub);
  }

  lemma Below(table: seq<Command>, c: Command)
    requires TableOk(table) && c in table
    ensures c.id < FUTURE
  {
    hide SameName;
  }

  // A rule about one command, seen from any command.
  lemma SingleOther(table: seq<Command>, categories: nat, u: User, c: Command, name: string, on: bool)
    requires TableOk(table) && |u.bits| == BITS && c in table
    ensures var v := After(table, categories, u, Single(on, name));
            && Bit(v.bits, c.id) == (if SameName(c.name, name) then on else Bit(u.bits, c.id))
            && (c.id in v.subs <==> c.id in u.subs && !SameName(c.name, name))
            && (c.id in v.subs ==> v.subs[c.id] == u.subs[c.id])
  {
    hide SetCommand, SameName, TableOk;
    var f := Lookup(table, name);
    if f.Some? {
      SingleEffect(table, categories, u, f.value, name, on);
      Below(table, c);
      if f.value.id == c.id {
        SameCommand(table, c, f.value);
      } else if SameName(c.name, name) {
        LookupIs(table, c, name);
      }
    }
  }

  lemma SubKeepsBits(table: seq<Command>, categories: nat, u: User, name: string, sub: string)
    requires |u.bits| == BITS
    ensures After(table, categories, u, Sub(name, sub)).bits == u.bits
  {
    hide SameName, Has;
  }

  // A subcommand rule, seen from any command and subcommand.
  lemma SubOther(table: seq<Command>, categories: nat, u: User, rule: Rule, c: Command, sub: string)
    requires TableOk(table) && |u.bits| == BITS && c in table && rule.Sub?
    ensures Listed(After(table, categories, u, rule), c.id, sub) <==>
            Listed(u, c.id, sub) || (Names(rule, c, sub) && !Bit(u.bits, c.id))
  {
    var f := Lookup(table, rule.name);
    if f.Some? && rule.sub != "" {
      SubEffect(table, categories, u, f.value, rule.name, rule.sub);
      var v := After(table, categories, u, rule);
      if f.value.id == c.id {
        SameCommand(table, c, f.value);
        var listed := if c.id in u.subs then u.subs[c.id] else [];
        SameNameClass(listed, rule.sub, sub);
      } else if SameName(c.name, rule.name) {
        LookupIs(table, c, rule.name);
      }
    }
  }

  // Names that differ in case only are the same subcommand.
  lemma SameNameClass(listed: seq<string>, a: string, b: string)
    ensures Has(listed + [a], b) <==> Has(listed, b) || SameName(a, b)
    ensures Has(listed, a) && SameName(a, b) ==> Has(listed, b)
  {
    forall s | s in listed ensures s in listed + [a] {}
    assert a in listed + [a];
  }

  lemma StepListed(table: seq<Command>, categories: nat, u: User, rule: Rule, c: Command, sub: string)
    requires TableOk(table) && |u.bits| == BITS && c in table
    ensures Listed(After(table, categories, u, rule), c.id, sub) <==>
            && !Covers(categories, rule, c)
            && (Listed(u, c.id, sub) || (Names(rule, c, sub) && !Bit(u.bits, c.id)))
  {
    hide SetCategory, SetCommand, AddSub, SameName, Ids, TableOk, Has;
    match rule
    case Everything(on) =>
    case Category(on, category) =>
      if category < categories {
        CategoryEffect(table, categories, u, category, on, c);
      }
    case Single(on, name) =>
      SingleOther(table, categories, u, c, name, on);
    case Sub(_, _) =>
      SubOther(table, categories, u, rule, c, sub);
  }

  // No rule from `k` on decides about the command.
  ghost predicate Undisturbed(categories: nat, rules: seq<Rule>, c: Command, k: nat) {
    forall i | k <= i < |rules| :: !Covers(categories, rules[i], c)
  }

  /** Over every rule list: the last rule that covers a command decides whether it is on, and one that
      no rule covers is off. */
  lemma {:induction false} LastRuleDecides(table: seq<Command>, categories: nat, rules: seq<Rule>, c: Command, k: nat)
    requires TableOk(table) && c in table && k <= |rules| && Undisturbed(categories, rules, c, k)
    requires k > 0 ==> Covers(categories, rules[k - 1], c)
    ensures Bit(Rebuilt(table, categories, rules).bits, c.id) == (k > 0 && rules[k - 1].on)
  {
    hide SameName, TableOk, SetUser;
    var n := |rules|;
    if n > 0 {
      var before := Rebuilt(table, categories, rules[..n - 1]);
      assert Rebuilt(table, categories, rules) == After(table, categories, before, rules[n - 1]);
      StepBit(table, categories, before, rules[n - 1], c);
      if k < n {
        LastRuleDecides(table, categories, rules[..n - 1], c, k);
      }
    }
  }

  // Rule `j` lists the subcommand, and no later rule decides about the command.
  ghost predicate ListedBy(categories: nat, rules: seq<Rule>, c: Command, sub: string, j: nat) {
    j < |rules| && Names(rules[j], c, sub) && Undisturbed(categories, rules, c, j)
  }

  /** Over every rule list: a subcommand is listed exactly if some rule names it after the last rule
      that covers its command, and the command is off. */
  lemma {:induction false} ListedIff(table: seq<Command>, categories: nat, rules: seq<Rule>, c: Command, sub: string)
    requires TableOk(table) && c in table
    ensures var v := Rebuilt(table, categories, rules);
            Listed(v, c.id, sub) <==> !Bit(v.bits, c.id) && exists j :: ListedBy(categories, rules, c, sub, j)
  {
    hide SameName, TableOk, SetUser, Names;
    var n := |rules|;
    if n > 0 {
      var rules', rule := rules[..n - 1], rules[n - 1];
      var before, v := Rebuilt(table, categories, rules'), Rebuilt(table, categories, rules);
      assert v == After(table, categories, before, rule);
      ListedIff(table, categories, rules', c, sub);
      StepListed(table, categories, before, rule, c, sub);
      StepBit(table, categories, before, rule, c);
      NamesCoversNot(categories, rule, c, sub);
      if Listed(before, c.id, sub) && !Covers(categories, rule, c) {
        var j :| ListedBy(categories, rules', c, sub, j);
        assert ListedBy(categories, rules, c, sub, j);
      }
      if Names(rule, c, sub) {
        assert ListedBy(categories, rules, c, sub, n - 1);
      }
      if j: nat :| ListedBy(categories, rules, c, sub, j) {
        assert !Covers(categories, rule, c);
        if j < n - 1 {
          assert forall i | j <= i < n - 1 :: rules'[i] == rules[i];
          assert ListedBy(categories, rules', c, sub, j);
        }
      }
    }
  }

  lemma NamesCoversNot(categories: nat, rule: Rule, c: Command, sub: string)
    ensures Names(rule, c, sub) ==> !Covers(categories, rule, c)
  {}

  predicate MayRun(u: User, c: Command, args: seq<string>) {
    u.all || Bit(u.bits, c.id) || (args != [] && Listed(u, c.id, args[0]))
  }

  /** What a rule list allows: a command with any arguments if the last rule that covers it is a plus
      rule, otherwise with those first arguments that are named after that rule. */
  lemma MayRunIff(
    table: seq<Command>, categories: nat, rules: seq<Rule>, c: Command, args: seq<string>, k: nat)
    requires TableOk(table) && c in table && k <= |rules| && Undisturbed(categories, rules, c, k)
    requires k > 0 ==> Covers(categories, rules[k - 1], c)
    ensures MayRun(Rebuilt(table, categories, rules), c, args) <==>
            || (k > 0 && rules[k - 1].on)
            || (args != [] && exists j | k <= j < |rules| :: Names(rules[j], c, args[0]))
  {
    hide SameName, SetUser, Names, SetAll, Covers, Listed;
    Below(table, c);
    var v := Rebuilt(table, categories, rules);
    ReachedOk(table, categories, rules);
    LastRuleDecides(table, categories, rules, c, k);
    if args != [] {
      ListedIff(table, categories, rules, c, args[0]);
      forall j: nat ensures ListedBy(categories, rules, c, args[0], j) <==>
                            k <= j < |rules| && Names(rules[j], c, args[0])
      {
        if j < |rules| && Names(rules[j], c, args[0]) {
          NamesCoversNot(categories, rules[j], c, args[0]);
        }
      }
    }
  }

  // ACLCheckCommandPerm, command part: whether the arguments after the command may follow it.
  method CheckCommandPerm(p: Permissions, c: Command, isAuth: bool, args: seq<string>) returns (allowed: bool)
    requires p.Valid()
    ensures allowed <==> isAuth || MayRun(p.View(), c, args)
  {
    if p.all || isAuth {
      return true;
    }
    if c.id < BITS && p.bits[c.id] {
      return true;
    }
    if args == [] || c.id !in p.subs {
      return false;
    }
    var subs := p.subs[c.id];
    for k := 0 to |subs|
      invariant forall i | 0 <= i < k :: !SameName(subs[i], args[0])
    {
      if SameName(args[0], subs[k]) {
        SameNameSym(args[0], subs[k]);
        return true;
      }
    }
    return false;
  }
}
