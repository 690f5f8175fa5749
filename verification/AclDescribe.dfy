/** The description of a user as a list of rules, and what replaying it gives. */
module AclDescribe {
  import opened Wrappers
  import opened Strings
  import opened SplitArgs
  import opened AclModel

  // The bitmap of the fake user that follows the rules, and the rules so far.
  datatype Described = Described(bits: set<nat>, rules: seq<string>)

  predicate Additive(u: User) { FUTURE_BIT !in u.bits }

  function Sign(on: bool): string { if on then "+" else "-" }

  // Among the first k commands, those of a category whose bit is on, or off.
  function Count(t: Table, u: User, category: nat, on: bool, k: nat): nat
    requires k <= |t|
  {
    if k == 0 then 0
    else
      var here := category in t[k - 1].categories && (t[k - 1].id in u.bits) == on;
      Count(t, u, category, on, k - 1) + if here then 1 else 0
  }

  // The category a name in the list stands for.
  function CategoryAt(j: nat): (c: nat)
    requires j < CATEGORIES
    ensures Category(LowerAll(CategoryName(j)), 0) == Some(c)
  {
    Category(LowerAll(CategoryName(j)), 0).value
  }

  predicate Wanted(t: Table, u: User, category: nat) {
    var on, off := Count(t, u, category, true, |t|), Count(t, u, category, false, |t|);
    if Additive(u) then on > off else off > on
  }

  function CategoryRule(u: User, j: nat): string
    requires j < CATEGORIES
  {
    Sign(Additive(u)) + "@" + CategoryName(j)
  }

  function DescribeCategories(t: Table, u: User, k: nat): Described
    requires k <= CATEGORIES
  {
    if k == 0 then
      if Additive(u) then Described({}, ["-@all"]) else Described(AllBits(), ["+@all"])
    else
      var d := DescribeCategories(t, u, k - 1);
      var c := CategoryAt(k - 1);
      if !Wanted(t, u, c) then d
      else
        var ids := Members(t, c);
        Described(if Additive(u) then d.bits + ids else d.bits - ids, d.rules + [CategoryRule(u, k - 1)])
  }

  function SubRules(name: string, subs: seq<string>): seq<string> {
    seq(|subs|, i requires 0 <= i < |subs| => "+" + name + "|" + subs[i])
  }

  function CommandRules(u: User, bits: set<nat>, cmd: Command): seq<string> {
    var on := cmd.id in u.bits;
    (if on != (cmd.id in bits) then [Sign(on) + cmd.name] else [])
    + (if on then [] else SubRules(cmd.name, Subs(u, cmd.id)))
  }

  function DescribeCommands(t: Table, u: User, k: nat): Described
    requires k <= |t|
  {
    if k == 0 then DescribeCategories(t, u, CATEGORIES)
    else
      var d, cmd := DescribeCommands(t, u, k - 1), t[k - 1];
      Described(if cmd.id in u.bits then d.bits + {cmd.id} else d.bits - {cmd.id},
                d.rules + CommandRules(u, d.bits, cmd))
  }

  /** The rules about commands; the panic is that the fake user ends with other bits. */
  function CommandDescription(t: Table, u: User): Described { DescribeCommands(t, u, |t|) }

  function Prefixed(mark: string, list: seq<string>): seq<string> {
    seq(|list|, i requires 0 <= i < |list| => mark + list[i])
  }

  function DescribeUser(t: Table, u: User): seq<string> {
    (if u.enabled then ["on"] else []) + (if u.disabled then ["off"] else []) + (if u.noPass then ["nopass"] else [])
    + Prefixed("#", u.passwords)
    + (if u.allKeys then ["~*"] else Prefixed("~", u.patterns))
    + CommandDescription(t, u).rules
  }

  // -------------------------------------------------------------- reading one rule

  lemma NotWord(low: string)
    requires low != "" && low != "~*" && low != "+@all" && low != "-@all"
    requires low[0] == '#' || low[0] == '~' || low[0] == '+' || low[0] == '-'
    ensures WordOf(low).None?
  {
  }

  lemma ReadPassword(t: Table, hash: Hash, u: User, p: string)
    requires IsHash(p)
    ensures SetUser(t, hash, u, "#" + p) == Ok(AddPassword(u, p))
  {
    hide WordOf;
    var op := "#" + p;
    CStringPlain(op);
    assert op[1..] == p;
    assert LowerAll(op)[0] == '#';
    NotWord(LowerAll(op));
  }

  lemma ReadPattern(t: Table, hash: Hash, u: User, p: string)
    requires !HasSpaces(p) && p != "*" && !u.allKeys
    ensures SetUser(t, hash, u, "~" + p) == Ok(u.(patterns := AddOnce(u.patterns, p)))
  {
    hide WordOf;
    var op := "~" + p;
    CStringPlain(op);
    assert op[1..] == p;
    var low := LowerAll(op);
    assert low[0] == '~';
    assert p != "" ==> low[1] == Lower(p[0]);
    assert p == "*" || |p| != 1 || p[0] != '*';
    NotWord(low);
  }

  lemma ReadCommand(t: Table, hash: Hash, u: User, on: bool, name: string)
    requires name != "" && name[0] != '@' && '\0' !in name
    ensures SetUser(t, hash, u, Sign(on) + name) == if on then Allow(t, u, name) else Deny(t, u, name)
  {
    hide WordOf, Allow, Deny;
    var op := Sign(on) + name;
    CStringPlain(op);
    assert op[1..] == name && op[1] == name[0];
    var low := LowerAll(op);
    assert low[1] == Lower(name[0]) != '@';
    assert low[0] == op[0];
    NotWord(low);
  }

  predicate Letters(s: string) { s != "" && forall i | 0 <= i < |s| :: 'a' <= s[i] <= 'z' }

  lemma LetterWord(s: string)
    requires Letters(s) && (s[0] != 'a' || |s| != 3)
    ensures '\0' !in s && |LowerAll(s)| > 0 && LowerAll(s) != "all" && Bareable(s)
  {
    assert LowerAll(s)[0] == s[0];
  }

  lemma CategoryNames(j: nat)
    requires j < CATEGORIES
    ensures '\0' !in CategoryName(j) && |LowerAll(CategoryName(j))| > 0 && LowerAll(CategoryName(j)) != "all"
    ensures Bareable(CategoryName(j))
  {
    hide LowerAll, Bareable, CategoryName, Letters;
    if j < 11 { NameIsWord(j); } else { LateNameIsWord(j); }
    LetterWord(CategoryName(j));
  }

  lemma NameIsWord(j: nat)
    requires j < 11
    ensures Letters(CategoryName(j)) && (CategoryName(j)[0] != 'a' || |CategoryName(j)| != 3)
  {
  }

  lemma LateNameIsWord(j: nat)
    requires 11 <= j < CATEGORIES
    ensures Letters(CategoryName(j)) && (CategoryName(j)[0] != 'a' || |CategoryName(j)| != 3)
  {
  }

  lemma ReadCategory(t: Table, hash: Hash, u: User, on: bool, j: nat)
    requires j < CATEGORIES
    ensures SetUser(t, hash, u, Sign(on) + "@" + CategoryName(j)) == Ok(SetCategory(t, u, CategoryAt(j), on))
  {
    hide WordOf, SetCategory, CategoryName, Category, Bareable, IsHash, HasSpaces, Allow, Deny;
    CategoryNames(j);
    var name := CategoryName(j);
    var op := Sign(on) + "@" + name;
    CStringPlain(op);
    assert op[2..] == name && op[1] == '@';
    var low := LowerAll(op);
    assert low[2..] == LowerAll(name);
    assert "+@all"[2..] == "all" && "-@all"[2..] == "all";
    assert low[0] == op[0];
    NotWord(low);
  }

  lemma {:induction false} BarAt(s: string, k: nat)
    requires k < |s| && s[k] == '|' && '|' !in s[..k]
    ensures Bar(s) == Some(k)
  {
    if k > 0 {
      assert s[..k][0] == s[0];
      assert s[1..][..k - 1] == s[..k][1..];
      BarAt(s[1..], k - 1);
    }
  }

  // ------------------------------------------------------------------ replaying

  lemma {:induction false} SetAllConcat(t: Table, hash: Hash, u: User, a: seq<string>, b: seq<string>)
    requires SetAll(t, hash, u, a).Ok?
    ensures SetAll(t, hash, u, a + b) == SetAll(t, hash, SetAll(t, hash, u, a).user, b)
    decreases |a|
  {
    hide SetUser;
    if a == [] {
      assert a + b == b;
    } else {
      assert (a + b)[1..] == a[1..] + b;
      SetAllConcat(t, hash, SetUser(t, hash, u, a[0]).user, a[1..], b);
    }
  }

  lemma SetAllOne(t: Table, hash: Hash, u: User, op: string)
    ensures SetAll(t, hash, u, [op]) == SetUser(t, hash, u, op)
  {
    hide SetUser;
    assert [op][1..] == [];
    if SetUser(t, hash, u, op).Ok? {
      assert SetAll(t, hash, SetUser(t, hash, u, op).user, []) == SetUser(t, hash, u, op);
    }
  }

  // One more rule after those that led from v to w.
  lemma SetAllMore(t: Table, hash: Hash, v: User, rules: seq<string>, w: User, op: string)
    requires SetAll(t, hash, v, rules) == Ok(w)
    ensures SetAll(t, hash, v, rules + [op]) == SetUser(t, hash, w, op)
  {
    hide SetUser, SetAll;
    SetAllConcat(t, hash, v, rules, [op]);
    SetAllOne(t, hash, w, op);
  }

  lemma {:induction false} ReplayPasswords(t: Table, hash: Hash, v: User, list: seq<string>)
    requires NoDup(v.passwords + list) && forall p | p in list :: IsHash(p)
    ensures SetAll(t, hash, v, Prefixed("#", list))
         == Ok(v.(passwords := v.passwords + list, noPass := v.noPass && list == []))
    decreases |list|
  {
    hide SetUser, IsHash;
    var rules := Prefixed("#", list);
    if list == [] {
      assert v.passwords + [] == v.passwords;
    } else {
      var p := list[0];
      ReadPassword(t, hash, v, p);
      assert p == (v.passwords + list)[|v.passwords|];
      forall i | 0 <= i < |v.passwords|
        ensures v.passwords[i] != p
      {
        assert (v.passwords + list)[i] == v.passwords[i];
      }
      assert rules[1..] == Prefixed("#", list[1..]);
      assert v.passwords + [p] + list[1..] == v.passwords + list;
      ReplayPasswords(t, hash, AddPassword(v, p), list[1..]);
    }
  }

  lemma {:induction false} ReplayPatterns(t: Table, hash: Hash, v: User, list: seq<string>)
    requires NoDup(v.patterns + list) && !v.allKeys && forall p | p in list :: !HasSpaces(p) && p != "*"
    ensures SetAll(t, hash, v, Prefixed("~", list)) == Ok(v.(patterns := v.patterns + list))
    decreases |list|
  {
    hide SetUser, HasSpaces;
    var rules := Prefixed("~", list);
    if list == [] {
      assert v.patterns + [] == v.patterns;
    } else {
      var p := list[0];
      ReadPattern(t, hash, v, p);
      assert p == (v.patterns + list)[|v.patterns|];
      forall i | 0 <= i < |v.patterns|
        ensures v.patterns[i] != p
      {
        assert (v.patterns + list)[i] == v.patterns[i];
      }
      assert rules[1..] == Prefixed("~", list[1..]);
      assert v.patterns + [p] + list[1..] == v.patterns + list;
      ReplayPatterns(t, hash, v.(patterns := v.patterns + [p]), list[1..]);
    }
  }

  predicate IsWordRule(rule: string, word: Word) {
    match word
    case On => rule == "on"
    case Off => rule == "off"
    case NoPass => rule == "nopass"
    case AllKeys => rule == "~*"
    case AllCommands => rule == "+@all"
    case NoCommands => rule == "-@all"
    case _ => false
  }

  lemma WordRule(t: Table, hash: Hash, v: User, rule: string, word: Word)
    requires IsWordRule(rule, word)
    ensures SetAll(t, hash, v, [rule]) == Ok(SetWord(v, word))
  {
    hide SetOther;
    assert LowerAll(rule) == rule;
    CStringPlain(rule);
    SetAllOne(t, hash, v, rule);
  }

  // ---------------------------------------------------------- replaying the commands

  // Replaying d.rules on v gives w: the bits of the fake user, and the subcommands of
  // the first k commands of u.
  ghost predicate Reached(t: Table, hash: Hash, u: User, v: User, d: Described, k: nat, w: User)
    requires k <= |t|
  {
    && SetAll(t, hash, v, d.rules) == Ok(w)
    && w == v.(bits := d.bits, allCommands := w.allCommands, subs := w.subs)
    && BitsInv(t, w)
    && w.subs == SubsOfFirst(t, u, k)
    && (forall i: nat | i < COMMAND_BITS && i !in Ids(t) :: i in w.bits <==> i in u.bits)
    && (FUTURE_BIT in w.bits <==> FUTURE_BIT in u.bits)
    && forall i | 0 <= i < k :: t[i].id in w.bits <==> t[i].id in u.bits
  }

  ghost function SubsOfFirst(t: Table, u: User, k: nat): map<nat, seq<string>>
    requires k <= |t|
  {
    map id | id in u.subs && id in Ids(t[..k]) :: u.subs[id]
  }

  lemma StartReached(t: Table, hash: Hash, u: User, v: User) returns (w: User)
    requires ValidTable(t) && BitsInv(t, u) && UserInv(t, v)
    ensures Reached(t, hash, u, v, DescribeCategories(t, u, 0), 0, w)
  {
    hide SetAll;
    var word := if Additive(u) then NoCommands else AllCommands;
    WordRule(t, hash, v, if Additive(u) then "-@all" else "+@all", word);
    w := SetWord(v, word);
    assert IsBit(FUTURE_BIT);
    assert Ids(t[..0]) == {};
    assert SubsOfFirst(t, u, 0) == map[];
    NothingOk(t);
    EverythingOk(t);
    forall i: nat | i < COMMAND_BITS && i !in Ids(t)
      ensures i in w.bits <==> i in u.bits
    {
      assert IsBit(i);
    }
  }

  lemma CategoryReached(t: Table, hash: Hash, u: User, v: User, d: Described, w: User, j: nat, on: bool)
    requires ValidTable(t) && j < CATEGORIES && Reached(t, hash, u, v, d, 0, w)
    ensures
      var ids := Members(t, CategoryAt(j));
      var d1 := Described(if on then d.bits + ids else d.bits - ids, d.rules + [Sign(on) + "@" + CategoryName(j)]);
      Reached(t, hash, u, v, d1, 0, SetCategory(t, w, CategoryAt(j), on))
  {
    hide ValidTable, SetUser, SetAll, CategoryName, BitsOk, Members, Sign;
    var c := CategoryAt(j);
    ReadCategory(t, hash, w, on, j);
    SetAllMore(t, hash, v, d.rules, w, Sign(on) + "@" + CategoryName(j));
    SetCategoryKeepsInv(t, w, c, on);
    MembersAreCommands(t, c);
    assert SubsOfFirst(t, u, 0) == map[] by { assert Ids(t[..0]) == {}; }
    assert w.subs - Members(t, c) == map[];
  }

  lemma {:induction false} CategoriesReached(t: Table, hash: Hash, u: User, v: User, k: nat) returns (w: User)
    requires ValidTable(t) && BitsInv(t, u) && UserInv(t, v) && k <= CATEGORIES
    ensures Reached(t, hash, u, v, DescribeCategories(t, u, k), 0, w)
  {
    hide Reached, ValidTable, BitsOk, UserInv, Wanted, CategoryName, SetCategory, Members, Category, AllBits;
    if k == 0 {
      w := StartReached(t, hash, u, v);
    } else {
      w := CategoriesReached(t, hash, u, v, k - 1);
      if Wanted(t, u, CategoryAt(k - 1)) {
        CategoryReached(t, hash, u, v, DescribeCategories(t, u, k - 1), w, k - 1, Additive(u));
        w := SetCategory(t, w, CategoryAt(k - 1), Additive(u));
      }
    }
  }

  // The subcommands of one command, added one after the other.
  lemma {:induction false} ReplaySubs(t: Table, hash: Hash, w: User, cmd: Command, subs: seq<string>, j: nat)
    requires ValidTable(t) && cmd in t && cmd.id !in w.bits && cmd.id !in w.subs
    requires Distinguished(subs) && 0 < j <= |subs|
    ensures SetAll(t, hash, w, SubRules(cmd.name, subs)[..j])
         == Ok(w.(subs := w.subs[cmd.id := subs[..j]], allCommands := false))
  {
    hide SetUser, SetAll, Allow, ValidTable;
    var rules := SubRules(cmd.name, subs);
    var x := if j == 1 then w else w.(subs := w.subs[cmd.id := subs[..j - 1]], allCommands := false);
    if j == 1 {
      assert rules[..0] == [];
      assert SetAll(t, hash, w, []) == Ok(w) by { SetAllNone(t, hash, w); }
    } else {
      ReplaySubs(t, hash, w, cmd, subs, j - 1);
    }
    assert rules[..j] == rules[..j - 1] + [rules[j - 1]];
    SetAllMore(t, hash, w, rules[..j - 1], x, rules[j - 1]);
    ReadSub(t, hash, x, cmd, subs[j - 1]);
    assert subs[..j] == subs[..j - 1] + [subs[j - 1]];
    NewSub(x, cmd.id, subs, j - 1);
    assert x.bits - {cmd.id} == x.bits;
  }

  lemma SetAllNone(t: Table, hash: Hash, w: User)
    ensures SetAll(t, hash, w, []) == Ok(w)
  {
  }

  lemma NewSub(x: User, id: nat, subs: seq<string>, j: nat)
    requires Distinguished(subs) && j < |subs| && Subs(x, id) == subs[..j]
    ensures AddTo(Subs(x, id), subs[j]) == subs[..j] + [subs[j]]
  {
    hide LowerAll;
  }

  lemma ReadSub(t: Table, hash: Hash, x: User, cmd: Command, sub: string)
    requires ValidTable(t) && cmd in t && cmd.id !in x.bits && sub != "" && '\0' !in sub
    ensures SetUser(t, hash, x, "+" + cmd.name + "|" + sub) == Ok(SetBit(AddSub(x, cmd.id, sub), cmd.id, false))
  {
    hide SetUser, SetBit, AddSub;
    var name := cmd.name + "|" + sub;
    var k :| 0 <= k < |t| && t[k] == cmd;
    LookupOwn(t, k);
    assert name[..|cmd.name|] == cmd.name && name[|cmd.name|] == '|' && name[|cmd.name| + 1..] == sub;
    BarAt(name, |cmd.name|);
    assert "+" + cmd.name + "|" + sub == Sign(true) + name;
    ReadCommand(t, hash, x, true, name);
  }

  // The rule that sets the bit of the k-th command.
  lemma BitFollows(t: Table, hash: Hash, w: User, on: bool, k: nat) returns (x: User)
    requires ValidTable(t) && BitsInv(t, w) && k < |t|
    ensures
      var cmd := t[k];
      && x == SetBit(w, cmd.id, on).(subs := w.subs - {cmd.id})
      && SetUser(t, hash, w, Sign(on) + cmd.name) == Ok(x) && BitsInv(t, x)
  {
    hide SetUser, BitsOk;
    var cmd := t[k];
    ReadCommand(t, hash, w, on, cmd.name);
    LookupOwn(t, k);
    assert Bar(cmd.name).None?;
    x := SetBit(w, cmd.id, on).(subs := w.subs - {cmd.id});
    assert cmd.id in Ids(t);
    SetBitKeepsInv(t, w, cmd.id, on);
  }

  lemma BitReached(t: Table, hash: Hash, u: User, v: User, d: Described, k: nat, w: User) returns (x: User)
    requires ValidTable(t) && BitsInv(t, u) && k < |t| && Reached(t, hash, u, v, d, k, w)
    ensures
      var cmd := t[k];
      var on := cmd.id in u.bits;
      var bits := if on then d.bits + {cmd.id} else d.bits - {cmd.id};
      var fix := if on != (cmd.id in d.bits) then [Sign(on) + cmd.name] else [];
      && SetAll(t, hash, v, d.rules + fix) == Ok(x)
      && x == v.(bits := bits, allCommands := x.allCommands, subs := SubsOfFirst(t, u, k))
      && BitsInv(t, x)
  {
    hide SetUser, SetAll, BitsOk, SubsOfFirst;
    var cmd := t[k];
    var on := cmd.id in u.bits;
    if on == (cmd.id in d.bits) {
      x := w;
      assert d.rules + [] == d.rules;
      assert (if on then d.bits + {cmd.id} else d.bits - {cmd.id}) == d.bits;
    } else {
      var op := Sign(on) + cmd.name;
      SetAllMore(t, hash, v, d.rules, w, op);
      x := BitFollows(t, hash, w, on, k);
      NotYet(t, u, k);
      assert w.subs - {cmd.id} == w.subs;
    }
  }

  lemma NotYet(t: Table, u: User, k: nat)
    requires ValidTable(t) && k < |t|
    ensures t[k].id !in SubsOfFirst(t, u, k)
    ensures SubsOfFirst(t, u, k + 1) ==
      if t[k].id in u.subs then SubsOfFirst(t, u, k)[t[k].id := u.subs[t[k].id]] else SubsOfFirst(t, u, k)
  {
    hide WellNamed, LowerAll;
    assert forall i | 0 <= i < k :: t[i].id != t[k].id;
    assert t[..k + 1] == t[..k] + [t[k]];
    assert Ids(t[..k + 1]) == Ids(t[..k]) + {t[k].id} by {
      assert t[..k + 1][k] == t[k];
      forall id | id in Ids(t[..k])
        ensures id in Ids(t[..k + 1])
      {
        var i :| 0 <= i < k && t[..k][i].id == id;
        assert t[..k + 1][i].id == id;
      }
    }
  }

  lemma CommandReached(t: Table, hash: Hash, u: User, v: User, d: Described, k: nat, w: User) returns (y: User)
    requires ValidTable(t) && BitsInv(t, u) && k < |t| && Reached(t, hash, u, v, d, k, w)
    ensures
      var cmd := t[k];
      var bits := if cmd.id in u.bits then d.bits + {cmd.id} else d.bits - {cmd.id};
      Reached(t, hash, u, v, Described(bits, d.rules + CommandRules(u, d.bits, cmd)), k + 1, y)
  {
    hide SetUser, SetAll, BitsOk, SubsOfFirst, SubRules, CommandRules, ValidTable, Sign;
    var bits := if t[k].id in u.bits then d.bits + {t[k].id} else d.bits - {t[k].id};
    y := CommandReplayed(t, hash, u, v, d, k, w);
    BitsSettled(t, u, d.bits, bits, k);
  }

  // The rules of the k-th command, replayed.
  lemma CommandReplayed(t: Table, hash: Hash, u: User, v: User, d: Described, k: nat, w: User) returns (y: User)
    requires ValidTable(t) && BitsInv(t, u) && k < |t| && Reached(t, hash, u, v, d, k, w)
    ensures
      var cmd := t[k];
      && SetAll(t, hash, v, d.rules + CommandRules(u, d.bits, cmd)) == Ok(y) && BitsInv(t, y)
      && y == v.(bits := if cmd.id in u.bits then d.bits + {cmd.id} else d.bits - {cmd.id},
                 allCommands := y.allCommands, subs := SubsOfFirst(t, u, k + 1))
  {
    hide SetUser, SetAll, BitsOk, SubsOfFirst, SubRules, CommandRules, ValidTable, Sign, Reached, LowerAll;
    var cmd := t[k];
    var on := cmd.id in u.bits;
    var fix := if on != (cmd.id in d.bits) then [Sign(on) + cmd.name] else [];
    var x := BitReached(t, hash, u, v, d, k, w);
    NotYet(t, u, k);
    RulesOf(t, u, d.bits, k);
    y := x;
    if cmd.id in u.subs {
      SubsReached(t, hash, u, v, d.rules + fix, k, x);
      y := x.(subs := SubsOfFirst(t, u, k + 1), allCommands := false);
      assert d.rules + (fix + SubRules(cmd.name, u.subs[cmd.id])) == d.rules + fix + SubRules(cmd.name, u.subs[cmd.id]);
    } else {
      assert fix + [] == fix;
    }
  }

  lemma RulesOf(t: Table, u: User, bits: set<nat>, k: nat)
    requires BitsInv(t, u) && k < |t|
    ensures
      var cmd := t[k];
      var fix := if (cmd.id in u.bits) != (cmd.id in bits) then [Sign(cmd.id in u.bits) + cmd.name] else [];
      && CommandRules(u, bits, cmd) == fix + (if cmd.id in u.subs then SubRules(cmd.name, u.subs[cmd.id]) else [])
      && (cmd.id in u.subs ==> cmd.id !in u.bits)
  {
  }

  // Correcting the bit of one command does not touch the others.
  lemma BitsSettled(t: Table, u: User, bits: set<nat>, after: set<nat>, k: nat)
    requires ValidTable(t) && k < |t|
    requires after == if t[k].id in u.bits then bits + {t[k].id} else bits - {t[k].id}
    requires forall i: nat | i < COMMAND_BITS && i !in Ids(t) :: i in bits <==> i in u.bits
    requires FUTURE_BIT in bits <==> FUTURE_BIT in u.bits
    requires forall i | 0 <= i < k :: t[i].id in bits <==> t[i].id in u.bits
    ensures forall i: nat | i < COMMAND_BITS && i !in Ids(t) :: i in after <==> i in u.bits
    ensures FUTURE_BIT in after <==> FUTURE_BIT in u.bits
    ensures forall i | 0 <= i < k + 1 :: t[i].id in after <==> t[i].id in u.bits
  {
    assert t[k].id in Ids(t) && t[k].id < FUTURE_BIT;
  }

  lemma SubsReached(t: Table, hash: Hash, u: User, v: User, rules: seq<string>, k: nat, x: User)
    requires ValidTable(t) && BitsInv(t, u) && k < |t| && t[k].id in u.subs
    requires SetAll(t, hash, v, rules) == Ok(x) && BitsInv(t, x)
    requires x.subs == SubsOfFirst(t, u, k) && t[k].id !in x.bits
    ensures
      var y := x.(subs := SubsOfFirst(t, u, k + 1), allCommands := false);
      && SetAll(t, hash, v, rules + SubRules(t[k].name, u.subs[t[k].id])) == Ok(y)
      && BitsInv(t, y)
  {
    hide SetUser, SetAll, SubsOfFirst, SubRules;
    var cmd := t[k];
    var subs := u.subs[cmd.id];
    NotYet(t, u, k);
    ReplaySubs(t, hash, x, cmd, subs, |subs|);
    assert |SubRules(cmd.name, subs)| == |subs| by { SubRulesLength(cmd.name, subs); }
    assert SubRules(cmd.name, subs)[..|subs|] == SubRules(cmd.name, subs);
    assert subs[..|subs|] == subs;
    SetAllConcat(t, hash, v, rules, SubRules(cmd.name, subs));
  }

  lemma SubRulesLength(name: string, subs: seq<string>)
    ensures |SubRules(name, subs)| == |subs|
  {
  }

  lemma {:induction false} CommandsReached(t: Table, hash: Hash, u: User, v: User, k: nat) returns (w: User)
    requires ValidTable(t) && BitsInv(t, u) && UserInv(t, v) && k <= |t|
    ensures Reached(t, hash, u, v, DescribeCommands(t, u, k), k, w)
  {
    hide Reached, ValidTable, BitsOk, UserInv, CommandRules;
    if k == 0 {
      w := CategoriesReached(t, hash, u, v, CATEGORIES);
    } else {
      w := CommandsReached(t, hash, u, v, k - 1);
      w := CommandReached(t, hash, u, v, DescribeCommands(t, u, k - 1), k - 1, w);
    }
  }

  lemma AllSettled(t: Table, hash: Hash, u: User, v: User, d: Described, w: User)
    requires BitsInv(t, u) && Reached(t, hash, u, v, d, |t|, w)
    ensures d.bits == u.bits && w.subs == u.subs
  {
    forall i: nat
      ensures i in d.bits <==> i in u.bits
    {
      if i in Ids(t) { var k :| 0 <= k < |t| && t[k].id == i; }
      assert i in AllBits() <==> i < COMMAND_BITS;
    }
    assert t[..|t|] == t;
  }

  // ------------------------------------------------ when all commands are allowed

  lemma {:induction false} NoneOff(t: Table, u: User, category: nat, k: nat)
    requires k <= |t| && Ids(t) <= u.bits
    ensures Count(t, u, category, false, k) == 0
  {
    if k > 0 {
      NoneOff(t, u, category, k - 1);
      assert t[k - 1].id in Ids(t);
    }
  }

  lemma {:induction false} EverythingCategories(t: Table, u: User, k: nat)
    requires k <= CATEGORIES && FUTURE_BIT in u.bits && Ids(t) <= u.bits
    ensures DescribeCategories(t, u, k) == Described(AllBits(), ["+@all"])
  {
    hide CategoryName, AllBits, Members;
    if k > 0 {
      EverythingCategories(t, u, k - 1);
      NoneOff(t, u, CategoryAt(k - 1), |t|);
    }
  }

  lemma {:induction false} EverythingRules(t: Table, u: User, k: nat)
    requires ValidTable(t) && k <= |t| && FUTURE_BIT in u.bits && Ids(t) <= u.bits
    ensures DescribeCommands(t, u, k) == Described(AllBits(), ["+@all"])
  {
    hide CategoryName, DescribeCategories;
    if k == 0 {
      EverythingCategories(t, u, CATEGORIES);
    } else {
      EverythingRules(t, u, k - 1);
      var id := t[k - 1].id;
      assert id in Ids(t) && IsBit(id);
      assert AllBits() + {id} == AllBits();
      assert ["+@all"] + [] == ["+@all"];
    }
  }

  // ------------------------------------------------------------------ the results

  // ------------------------------------------------------ when the bitmaps are equal

  // Bits that belong to no command are set as the one for future commands is.
  ghost predicate OthersFollow(t: Table, bits: set<nat>, future: bool) {
    bits <= AllBits() && forall i: nat | i < COMMAND_BITS && i !in Ids(t) :: i in bits <==> future
  }

  lemma {:induction false} CategoriesFollow(t: Table, u: User, k: nat)
    requires ValidTable(t) && k <= CATEGORIES
    ensures OthersFollow(t, DescribeCategories(t, u, k).bits, !Additive(u))
  {
    hide Wanted, CategoryRule, CategoryName, Category, Members;
    if k == 0 {
      forall i: nat | i < COMMAND_BITS ensures i in AllBits() { assert IsBit(i); }
    } else {
      CategoriesFollow(t, u, k - 1);
      MembersAreCommands(t, CategoryAt(k - 1));
      forall id | id in Ids(t) ensures id in AllBits() { assert IsBit(id); }
    }
  }

  lemma {:induction false} CommandsFollow(t: Table, u: User, k: nat)
    requires ValidTable(t) && k <= |t|
    ensures OthersFollow(t, DescribeCommands(t, u, k).bits, !Additive(u))
    ensures forall i | 0 <= i < k :: t[i].id in DescribeCommands(t, u, k).bits <==> t[i].id in u.bits
  {
    hide DescribeCategories, CommandRules;
    if k == 0 {
      CategoriesFollow(t, u, CATEGORIES);
    } else {
      CommandsFollow(t, u, k - 1);
      assert t[k - 1].id in Ids(t) && t[k - 1].id < FUTURE_BIT && IsBit(t[k - 1].id);
    }
  }

  /** For any bits at all: the fake user ends with the same, and there is no panic, if and only
      if the bits that belong to no command of the table agree with the one for future
      commands. */
  lemma NoPanicIff(t: Table, u: User)
    requires ValidTable(t) && u.bits <= AllBits()
    ensures CommandDescription(t, u).bits == u.bits <==> OthersFollow(t, u.bits, FUTURE_BIT in u.bits)
  {
    hide DescribeCommands;
    CommandsFollow(t, u, |t|);
    var bits := CommandDescription(t, u).bits;
    if OthersFollow(t, u.bits, FUTURE_BIT in u.bits) {
      forall i: nat
        ensures i in bits <==> i in u.bits
      {
        if i < COMMAND_BITS && i in Ids(t) { var j :| 0 <= j < |t| && t[j].id == i; }
      }
    }
  }

  /** A command is taken out of the table, as when its module is unloaded. The description of
      a user works as before if and only if the bit of the command is that for future
      commands: who was allowed that command alone cannot be described any more. */
  lemma UnloadIff(t: Table, u: User, k: nat)
    requires ValidTable(t) && BitsInv(t, u) && k < |t|
    ensures
      var left := t[..k] + t[k + 1..];
      && ValidTable(left)
      && (CommandDescription(left, u).bits == u.bits <==> (t[k].id in u.bits <==> FUTURE_BIT in u.bits))
      && (BitsInv(left, u) <==> (t[k].id in u.bits <==> FUTURE_BIT in u.bits) && t[k].id !in u.subs)
  {
    hide CommandDescription, Distinguished, WellNamed, LowerAll, AllBits;
    var left := t[..k] + t[k + 1..];
    LeftTable(t, k);
    LeftIds(t, k);
    NoPanicIff(left, u);
    assert t[k].id < COMMAND_BITS;
  }

  lemma LeftTable(t: Table, k: nat)
    requires ValidTable(t) && k < |t|
    ensures ValidTable(t[..k] + t[k + 1..])
  {
    hide WellNamed, LowerAll;
    var left := t[..k] + t[k + 1..];
    forall i | 0 <= i < |left| ensures left[i] == t[if i < k then i else i + 1] {}
  }

  lemma LeftIds(t: Table, k: nat)
    requires ValidTable(t) && k < |t|
    ensures Ids(t[..k] + t[k + 1..]) == Ids(t) - {t[k].id} && t[k].id in Ids(t)
  {
    hide ValidTable;
    assert t[k].id in Ids(t);
    forall id
      ensures id in Ids(t[..k] + t[k + 1..]) <==> id in Ids(t) && id != t[k].id
    {
      if id in Ids(t) && id != t[k].id { StillInTable(t, k, id); }
      if id in Ids(t[..k] + t[k + 1..]) { OtherInTable(t, k, id); }
    }
  }

  lemma StillInTable(t: Table, k: nat, id: nat)
    requires k < |t| && id in Ids(t) && id != t[k].id
    ensures id in Ids(t[..k] + t[k + 1..])
  {
    var left := t[..k] + t[k + 1..];
    var i :| 0 <= i < |t| && t[i].id == id;
    assert left[if i < k then i else i - 1] == t[i];
  }

  lemma OtherInTable(t: Table, k: nat, id: nat)
    requires ValidTable(t) && k < |t| && id in Ids(t[..k] + t[k + 1..])
    ensures id in Ids(t) && id != t[k].id
  {
    hide WellNamed, LowerAll;
    var left := t[..k] + t[k + 1..];
    var i :| 0 <= i < |left| && left[i].id == id;
    assert left[i] == t[if i < k then i else i + 1];
  }

  /** The panic is unreachable: the fake user ends with the bits of the user, for every
      user any rules lead to while the table stays as it is. And the rules give those bits
      and the same subcommands to any user they are replayed on. */
  lemma CommandsDescribed(t: Table, hash: Hash, u: User, v: User)
    requires ValidTable(t) && UserInv(t, u) && UserInv(t, v)
    ensures CommandDescription(t, u).bits == u.bits
    ensures SetAll(t, hash, v, CommandDescription(t, u).rules)
         == Ok(v.(bits := u.bits, subs := u.subs, allCommands := FUTURE_BIT in u.bits && Ids(t) <= u.bits))
  {
    hide SetAll, DescribeCommands;
    var w := CommandsReached(t, hash, u, v, |t|);
    AllSettled(t, hash, u, v, DescribeCommands(t, u, |t|), w);
    if FUTURE_BIT in u.bits && Ids(t) <= u.bits {
      EverythingRules(t, u, |t|);
      WordRule(t, hash, v, "+@all", AllCommands);
    } else if w.allCommands {
      assert IsBit(FUTURE_BIT);
      MembersAreCommands(t, 0);
      forall id | id in Ids(t) ensures id in AllBits() { assert IsBit(id); }
      assert false;
    }
  }

  /** The description of a user, replayed on a new user, gives the same user; only the
      flag that all commands are allowed is computed anew from the bits. */
  lemma DescriptionRoundTrip(t: Table, hash: Hash, u: User)
    requires ValidTable(t) && GoodHash(hash) && UserInv(t, u)
    ensures SetAll(t, hash, FRESH, DescribeUser(t, u))
         == Ok(u.(allCommands := FUTURE_BIT in u.bits && Ids(t) <= u.bits))
  {
    hide SetAll, SetUser, CommandDescription, BitsOk, ValidTable, Prefixed, IsHash, HasSpaces, GoodHash;
    var flags := (if u.enabled then ["on"] else []) + (if u.disabled then ["off"] else []);
    var nopass := if u.noPass then ["nopass"] else [];
    var passwords := Prefixed("#", u.passwords);
    var patterns := if u.allKeys then ["~*"] else Prefixed("~", u.patterns);
    var rules := CommandDescription(t, u).rules;
    var v1 := FRESH.(enabled := u.enabled, disabled := u.disabled);
    var v2 := v1.(noPass := u.noPass);
    var v3 := v2.(passwords := u.passwords);
    var v4 := v3.(allKeys := u.allKeys, patterns := u.patterns);
    assert SetAll(t, hash, FRESH, flags) == Ok(v1) by {
      if u.enabled { WordRule(t, hash, FRESH, "on", On); assert flags == ["on"]; }
      else { WordRule(t, hash, FRESH, "off", Off); assert flags == ["off"]; }
    }
    assert SetAll(t, hash, v1, nopass) == Ok(v2) by {
      if u.noPass { WordRule(t, hash, v1, "nopass", NoPass); } else { SetAllNone(t, hash, v1); }
    }
    assert SetAll(t, hash, v2, passwords) == Ok(v3) by {
      assert [] + u.passwords == u.passwords;
      ReplayPasswords(t, hash, v2, u.passwords);
    }
    assert SetAll(t, hash, v3, patterns) == Ok(v4) by {
      if u.allKeys { WordRule(t, hash, v3, "~*", AllKeys); }
      else { assert [] + u.patterns == u.patterns; ReplayPatterns(t, hash, v3, u.patterns); }
    }
    assert UserInv(t, v4) by { NothingOk(t); }
    CommandsDescribed(t, hash, u, v4);
    SetAllConcat(t, hash, FRESH, flags, nopass);
    SetAllConcat(t, hash, FRESH, flags + nopass, passwords);
    SetAllConcat(t, hash, FRESH, flags + nopass + passwords, patterns);
    SetAllConcat(t, hash, FRESH, flags + nopass + passwords + patterns, rules);
  }

  /** For a user that any sequence of rules led to, the round trip is exact if and only
      if the flag is set whenever all bits are; +@all -get +get leaves it cleared. */
  lemma RoundTripIsExactIff(t: Table, hash: Hash, ops: seq<string>)
    requires ValidTable(t) && GoodHash(hash)
    ensures
      var u := Configure(t, hash, FRESH, ops);
      && CommandDescription(t, u).bits == u.bits
      && SetAll(t, hash, FRESH, DescribeUser(t, u)).Ok?
      && (SetAll(t, hash, FRESH, DescribeUser(t, u)) == Ok(u)
          <==> (FUTURE_BIT in u.bits && Ids(t) <= u.bits ==> u.allCommands))
  {
    hide SetAll, SetUser, CommandDescription, ValidTable, DescribeUser, GoodHash;
    NothingOk(t);
    ConfigureKeepsInv(t, hash, FRESH, ops);
    var u := Configure(t, hash, FRESH, ops);
    DescriptionRoundTrip(t, hash, u);
    CommandsDescribed(t, hash, u, FRESH);
    assert u.allCommands ==> FUTURE_BIT in u.bits && Ids(t) <= u.bits by {
      assert IsBit(FUTURE_BIT);
      MembersAreCommands(t, 0);
      forall id | id in Ids(t) ensures id in AllBits() { assert IsBit(id); }
    }
  }

  /** Denying one command and allowing it again: all bits are set, the flag is not. */
  lemma FlagIsNotKept(t: Table, hash: Hash, k: nat)
    requires ValidTable(t) && k < |t|
    ensures
      var u := FRESH.(bits := AllBits());
      && SetAll(t, hash, FRESH, ["+@all", "-" + t[k].name, "+" + t[k].name]) == Ok(u)
      && FUTURE_BIT in u.bits && Ids(t) <= u.bits && !u.allCommands
  {
    hide SetAll, SetUser, AllBits;
    var name := t[k].name;
    var u1 := SetWord(FRESH, AllCommands);
    var u2 := u1.(bits := AllBits() - {t[k].id}, allCommands := false);
    WordRule(t, hash, FRESH, "+@all", AllCommands);
    DeniedAgain(t, hash, k);
    SetAllMore(t, hash, FRESH, ["+@all"], u1, "-" + name);
    SetAllMore(t, hash, FRESH, ["+@all"] + ["-" + name], u2, "+" + name);
    assert ["+@all"] + ["-" + name] + ["+" + name] == ["+@all", "-" + name, "+" + name];
  }

  lemma DeniedAgain(t: Table, hash: Hash, k: nat)
    requires ValidTable(t) && k < |t|
    ensures
      var u1, name := SetWord(FRESH, AllCommands), t[k].name;
      var u2 := u1.(bits := AllBits() - {t[k].id}, allCommands := false);
      && SetUser(t, hash, u1, "-" + name) == Ok(u2)
      && SetUser(t, hash, u2, "+" + name) == Ok(FRESH.(bits := AllBits()))
      && FUTURE_BIT in AllBits() && Ids(t) <= AllBits()
  {
    hide SetUser;
    var name := t[k].name;
    var u1 := SetWord(FRESH, AllCommands);
    var u2 := u1.(bits := AllBits() - {t[k].id}, allCommands := false);
    LookupOwn(t, k);
    assert Bar(name).None?;
    assert FRESH.subs - {t[k].id} == FRESH.subs;
    ReadCommand(t, hash, u1, false, name);
    ReadCommand(t, hash, u2, true, name);
    assert IsBit(t[k].id) && IsBit(FUTURE_BIT);
    assert u2.bits + {t[k].id} == AllBits();
    forall id | id in Ids(t) ensures id in AllBits() { assert IsBit(id); }
  }
}
