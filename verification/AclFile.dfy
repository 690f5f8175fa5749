/** Decisions about commands, command identifiers, and the file all users are saved to
    and loaded from. */
module AclFile {
  import opened Wrappers
  import opened Strings
  import opened SplitArgs
  import opened AclModel
  import opened AclDescribe

  // ------------------------------------------------------------------- decisions

  datatype Decision = Allowed | DeniedCommand | DeniedKey(position: nat)

  // A command about to run; keys are the positions of its key arguments.
  datatype Request = Request(id: nat, isAuth: bool, argv: seq<string>, keys: seq<nat>)

  type Match = (string, string) -> bool     // pattern, key

  predicate CommandAllowed(u: User, r: Request) {
    || u.allCommands || r.isAuth || r.id in u.bits
    || (|r.argv| >= 2 && exists i :: 0 <= i < |Subs(u, r.id)| && LowerAll(CString(r.argv[1])) == LowerAll(Subs(u, r.id)[i]))
  }

  predicate KeyAllowed(u: User, key: string, matches: Match) {
    exists i :: 0 <= i < |u.patterns| && matches(u.patterns[i], key)
  }

  // The first key, from the k-th on, that no pattern matches.
  function FirstDenied(u: User, r: Request, matches: Match, k: nat): Option<nat>
    requires k <= |r.keys| && forall i | 0 <= i < |r.keys| :: r.keys[i] < |r.argv|
    decreases |r.keys| - k
  {
    if k == |r.keys| then None
    else if KeyAllowed(u, r.argv[r.keys[k]], matches) then FirstDenied(u, r, matches, k + 1)
    else Some(r.keys[k])
  }

  /** A connection without a user may run anything. */
  function Check(user: Option<User>, r: Request, matches: Match): Decision
    requires forall i | 0 <= i < |r.keys| :: r.keys[i] < |r.argv|
  {
    if user.None? then Allowed
    else
      var u := user.value;
      if !CommandAllowed(u, r) then DeniedCommand
      else
        var key := if u.allKeys then None else FirstDenied(u, r, matches, 0);
        if key.Some? then DeniedKey(key.value) else Allowed
  }

  // The command is allowed as a whole, or its first argument is a subcommand that is, in any
  // case of letters.
  ghost predicate MayRun(u: User, r: Request) {
    || u.allCommands || r.isAuth || r.id in u.bits
    || (|r.argv| > 1 && r.id in u.subs && exists sub | sub in u.subs[r.id] :: LowerAll(sub) == LowerAll(CString(r.argv[1])))
  }

  ghost predicate Matched(u: User, key: string, matches: Match) { exists p | p in u.patterns :: matches(p, key) }

  // The i-th key argument is the first that no pattern matches.
  ghost predicate FirstUnmatched(u: User, r: Request, matches: Match, i: nat)
    requires forall i | 0 <= i < |r.keys| :: r.keys[i] < |r.argv|
  {
    && i < |r.keys| && !Matched(u, r.argv[r.keys[i]], matches)
    && forall j | 0 <= j < i :: Matched(u, r.argv[r.keys[j]], matches)
  }

  // The meaning of a decision.
  ghost predicate Decides(u: User, r: Request, matches: Match, d: Decision)
    requires forall i | 0 <= i < |r.keys| :: r.keys[i] < |r.argv|
  {
    && (d.DeniedCommand? <==> !MayRun(u, r))
    && (d.Allowed? <==> MayRun(u, r) && (u.allKeys || forall i | 0 <= i < |r.keys| :: Matched(u, r.argv[r.keys[i]], matches)))
    && forall p ::
         d == DeniedKey(p) <==>
         MayRun(u, r) && !u.allKeys && exists i: nat :: FirstUnmatched(u, r, matches, i) && p == r.keys[i]
  }

  /** A command runs if and only if it, or its subcommand, is allowed and every key is matched
      by some pattern; otherwise the first key that is not is reported. */
  lemma CheckIs(u: User, r: Request, matches: Match)
    requires forall i | 0 <= i < |r.keys| :: r.keys[i] < |r.argv|
    ensures Decides(u, r, matches, Check(Some(u), r, matches))
    ensures Check(None, r, matches) == Allowed
  {
    hide LowerAll, CString, FirstDenied, Matched;
    MayRunIff(u, r);
    var i := FirstIs(u, r, matches, 0);
    forall j: nat | FirstUnmatched(u, r, matches, j) && FirstUnmatched(u, r, matches, i) ensures j == i {}
  }

  lemma MayRunIff(u: User, r: Request)
    ensures CommandAllowed(u, r) <==> MayRun(u, r)
  {
    hide LowerAll, CString;
    if |r.argv| > 1 && r.id in u.subs {
      if sub :| sub in u.subs[r.id] && LowerAll(sub) == LowerAll(CString(r.argv[1])) {
        var i :| 0 <= i < |u.subs[r.id]| && u.subs[r.id][i] == sub;
        assert LowerAll(CString(r.argv[1])) == LowerAll(Subs(u, r.id)[i]);
      }
    }
  }

  lemma {:induction false} FirstIs(u: User, r: Request, matches: Match, k: nat) returns (i: nat)
    requires k <= |r.keys| && forall i | 0 <= i < |r.keys| :: r.keys[i] < |r.argv|
    ensures k <= i <= |r.keys| && forall j | k <= j < i :: Matched(u, r.argv[r.keys[j]], matches)
    ensures i < |r.keys| ==> !Matched(u, r.argv[r.keys[i]], matches)
    ensures FirstDenied(u, r, matches, k) == if i < |r.keys| then Some(r.keys[i]) else None
    decreases |r.keys| - k
  {
    i := k;
    if k < |r.keys| {
      assert KeyAllowed(u, r.argv[r.keys[k]], matches) <==> Matched(u, r.argv[r.keys[k]], matches) by {
        KeyIs(u, r.argv[r.keys[k]], matches);
      }
      if KeyAllowed(u, r.argv[r.keys[k]], matches) { i := FirstIs(u, r, matches, k + 1); }
    }
  }

  lemma KeyIs(u: User, key: string, matches: Match)
    ensures KeyAllowed(u, key, matches) <==> Matched(u, key, matches)
  {
    if Matched(u, key, matches) {
      var p :| p in u.patterns && matches(p, key);
      var i :| 0 <= i < |u.patterns| && u.patterns[i] == p;
    }
  }

  // The user the description of u gives.
  function Restored(t: Table, u: User): User {
    u.(allCommands := FUTURE_BIT in u.bits && Ids(t) <= u.bits)
  }

  /** A user and what its description gives decide alike on every command whose
      identifier fits the bitmap, in the table or not: the flag that does not survive is
      never missed. */
  lemma DecisionsAreKept(t: Table, u: User, r: Request, matches: Match)
    requires ValidTable(t) && UserInv(t, u) && r.id < COMMAND_BITS
    requires forall i | 0 <= i < |r.keys| :: r.keys[i] < |r.argv|
    ensures Check(Some(Restored(t, u)), r, matches) == Check(Some(u), r, matches)
  {
    hide LowerAll, CString, Distinguished;
    var v := Restored(t, u);
    assert IsBit(r.id);
    if v.allCommands || u.allCommands {
      assert r.id in u.bits;
    }
    assert CommandAllowed(u, r) == CommandAllowed(v, r);
    SameKeys(u, v, r, matches, 0);
  }

  lemma {:induction false} SameKeys(u: User, v: User, r: Request, matches: Match, k: nat)
    requires k <= |r.keys| && forall i | 0 <= i < |r.keys| :: r.keys[i] < |r.argv|
    requires u.patterns == v.patterns
    ensures FirstDenied(u, r, matches, k) == FirstDenied(v, r, matches, k)
    decreases |r.keys| - k
  {
    if k < |r.keys| { SameKeys(u, v, r, matches, k + 1); }
  }

  // ------------------------------------------------------------------ identifiers

  /** Identifiers by lower case name, in the order names were first seen; the one of the
      reserved bit is skipped. */
  class CommandIds {
    var ids: map<string, nat>
    var next: nat

    ghost predicate Valid()
      reads this
    {
      && next != FUTURE_BIT
      && (forall n | n in ids :: ids[n] < next && ids[n] != FUTURE_BIT)
      && forall m, n | m in ids && n in ids && m != n :: ids[m] != ids[n]
    }

    constructor ()
      ensures Valid() && ids == map[]
    {
      ids, next := map[], 0;
    }

    method GetCommandID(name: string) returns (id: nat)
      requires Valid()
      modifies this
      ensures Valid()
      ensures ids == old(ids)[LowerAll(CString(name)) := id]
      ensures LowerAll(CString(name)) in old(ids) ==> id == old(ids)[LowerAll(CString(name))]
    {
      var low := LowerAll(CString(name));
      if low in ids {
        assert ids == ids[low := ids[low]];
        return ids[low];
      }
      ids := ids[low := next];
      id := next;
      next := next + 1;
      if next == COMMAND_BITS - 1 { next := next + 1; }
    }
  }

  /** Tables filled with these identifiers are valid as long as they fit the bitmap. */
  lemma GivenIdsAreValid(t: Table, c: CommandIds)
    requires c.Valid()
    requires forall i | 0 <= i < |t| :: WellNamed(t[i].name) && t[i].id < COMMAND_BITS
    requires forall i | 0 <= i < |t| :: LowerAll(t[i].name) in c.ids && c.ids[LowerAll(t[i].name)] == t[i].id
    requires forall i, j | 0 <= i < j < |t| :: LowerAll(t[i].name) != LowerAll(t[j].name)
    ensures ValidTable(t)
  {
    hide LowerAll, WellNamed;
  }

  // ------------------------------------------------------------------ the ACL file

  type Users = map<string, User>

  const DEFAULT_NAME := "default"

  // The default user as it is created.
  function DefaultUser(): User { SetWord(SetWord(SetWord(SetWord(FRESH, AllCommands), AllKeys), On), NoPass) }

  function LineWords(t: Table, name: string, u: User): seq<string> { ["user", name] + DescribeUser(t, u) }

  // Save writes one line a user, in some order of the names.
  function SaveLines(t: Table, users: Users, names: seq<string>): seq<string>
    requires forall i | 0 <= i < |names| :: names[i] in users
  {
    seq(|names|, i requires 0 <= i < |names| => Join(LineWords(t, names[i], users[names[i]])))
  }

  // What one line defines; None for an error.
  datatype Line = Blank | Defines(name: string, user: User) | Faulty

  function ReadLine(t: Table, hash: Hash, line: string): Line {
    var words := Split(line);
    if words.None? then Faulty
    else if words.value == [] then Blank
    else if words.value[0] != "user" || |words.value| < 2 then Faulty
    else if HasSpaces(words.value[1]) then Faulty
    else
      var r := SetAll(t, hash, FRESH, words.value[2..]);
      if r.Err? then Faulty else Defines(words.value[1], r.user)
  }

  // None once there was an error.
  function LoadLines(t: Table, hash: Hash, users: Users, lines: seq<string>, k: nat): Option<Users>
    requires k <= |lines|
  {
    if k == 0 then Some(users)
    else
      var before := LoadLines(t, hash, users, lines, k - 1);
      match ReadLine(t, hash, lines[k - 1])
      case Faulty => None
      case Blank => before
      case Defines(name, user) => if before.None? then None else Some(before.value[name := user])
  }

  function Load(t: Table, hash: Hash, lines: seq<string>): Option<Users> {
    LoadLines(t, hash, map[DEFAULT_NAME := DefaultUser()], lines, |lines|)
  }

  // ------------------------------------------------------------- saving and loading

  // Text without separators and quotes.
  ghost predicate Unquoted(s: string) {
    forall i | 0 <= i < |s| :: !EndsBare(s[i]) && s[i] != '"' && s[i] != '\'' && s[i] != '\0'
  }

  /** Patterns never contain blanks; subcommands and names of commands may. */
  ghost predicate Savable(t: Table, u: User) {
    && (forall i | 0 <= i < |t| :: Unquoted(t[i].name))
    && (forall p | p in u.patterns :: Unquoted(p))
    && (forall id | id in u.subs :: forall i | 0 <= i < |u.subs[id]| :: Unquoted(u.subs[id][i]))
  }

  ghost predicate AllBareable(words: seq<string>) { forall i | 0 <= i < |words| :: Bareable(words[i]) }

  lemma AllBareableConcat(a: seq<string>, b: seq<string>)
    requires AllBareable(a) && AllBareable(b)
    ensures AllBareable(a + b)
  {
    hide Bareable;
  }

  lemma PrefixedIsBareable(mark: string, list: seq<string>)
    requires Bareable(mark) && forall p | p in list :: Unquoted(p)
    ensures AllBareable(Prefixed(mark, list))
  {
    forall i | 0 <= i < |list|
      ensures Bareable(mark + list[i])
    {
      assert Unquoted(list[i]);
    }
  }

  lemma {:induction false} CategoriesAreBareable(t: Table, u: User, k: nat)
    requires k <= CATEGORIES
    ensures AllBareable(DescribeCategories(t, u, k).rules)
  {
    hide CategoryName, Members, AllBits;
    if k > 0 {
      CategoriesAreBareable(t, u, k - 1);
      CategoryNames(k - 1);
      BareableConcat(Sign(Additive(u)) + "@", CategoryName(k - 1));
      assert Bareable(CategoryRule(u, k - 1));
      assert AllBareable([CategoryRule(u, k - 1)]);
    }
  }

  lemma BareableConcat(a: string, b: string)
    requires Bareable(a) && (Unquoted(b) || Bareable(b))
    ensures Bareable(a + b)
  {
  }

  lemma {:induction false} CommandsAreBareable(t: Table, u: User, k: nat)
    requires Savable(t, u) && k <= |t|
    ensures AllBareable(DescribeCommands(t, u, k).rules)
  {
    hide Savable, Bareable, DescribeCategories, CommandRules;
    if k == 0 {
      CategoriesAreBareable(t, u, CATEGORIES);
    } else {
      CommandsAreBareable(t, u, k - 1);
      CommandIsBareable(t, u, DescribeCommands(t, u, k - 1).bits, k - 1);
    }
  }

  lemma CommandIsBareable(t: Table, u: User, bits: set<nat>, k: nat)
    requires Savable(t, u) && k < |t|
    ensures AllBareable(CommandRules(u, bits, t[k]))
  {
    hide Unquoted, Bareable;
    var cmd := t[k];
    var subs := Subs(u, cmd.id);
    Marks();
    BareableConcat(Sign(cmd.id in u.bits), cmd.name);
    BareableConcat("+", cmd.name);
    BareableConcat("+" + cmd.name, "|");
    forall i | 0 <= i < |subs|
      ensures Bareable("+" + cmd.name + "|" + subs[i])
    {
      BareableConcat("+" + cmd.name + "|", subs[i]);
    }
  }

  lemma Marks()
    ensures Bareable("+") && Bareable("-") && Bareable("#") && Bareable("~") && Bareable("~*") && Unquoted("|")
    ensures Bareable("on") && Bareable("off") && Bareable("nopass") && Bareable("user")
  {
  }

  lemma DescriptionIsBareable(t: Table, u: User)
    requires UserInv(t, u) && Savable(t, u)
    ensures AllBareable(DescribeUser(t, u))
  {
    hide Unquoted, Bareable, BitsOk, DescribeCommands, HasSpaces, IsHash, NoDup, Prefixed;
    Marks();
    var flags := (if u.enabled then ["on"] else []) + (if u.disabled then ["off"] else []) + (if u.noPass then ["nopass"] else []);
    assert AllBareable(flags);
    forall p | p in u.passwords ensures Unquoted(p) { HashIsUnquoted(p); }
    PrefixedIsBareable("#", u.passwords);
    PrefixedIsBareable("~", u.patterns);
    CommandsAreBareable(t, u, |t|);
    var patterns := if u.allKeys then ["~*"] else Prefixed("~", u.patterns);
    AllBareableConcat(flags, Prefixed("#", u.passwords));
    AllBareableConcat(flags + Prefixed("#", u.passwords), patterns);
    AllBareableConcat(flags + Prefixed("#", u.passwords) + patterns, CommandDescription(t, u).rules);
  }

  lemma HashIsUnquoted(p: string)
    requires IsHash(p)
    ensures Unquoted(p)
  {
  }

  lemma LineReadsBack(t: Table, hash: Hash, name: string, u: User)
    requires ValidTable(t) && GoodHash(hash) && UserInv(t, u) && Savable(t, u)
    requires name != "" && Unquoted(name) && !HasSpaces(name)
    ensures ReadLine(t, hash, Join(LineWords(t, name, u))) == Defines(name, Restored(t, u))
  {
    hide SetAll, DescribeUser, UserInv, Savable, GoodHash, ValidTable, Join, Split;
    DescriptionIsBareable(t, u);
    assert Bareable(name) by { assert HasSpaces(name) || !IsBlank(name[0]); }
    Marks();
    var words := LineWords(t, name, u);
    assert AllBareable(words);
    ReadsBackIff(words);
    assert words[2..] == DescribeUser(t, u);
    DescriptionRoundTrip(t, hash, u);
  }

  /** Saving all users and loading the file gives every user again, with the same
      decisions, whatever the order of the lines. */
  lemma FileRoundTrip(t: Table, hash: Hash, users: Users, names: seq<string>)
    requires ValidTable(t) && GoodHash(hash)
    requires (set n | n in names) == users.Keys && DEFAULT_NAME in users
    requires forall n | n in users ::
      UserInv(t, users[n]) && Savable(t, users[n]) && n != "" && Unquoted(n) && !HasSpaces(n)
    ensures Load(t, hash, SaveLines(t, users, names)) == Some(map n | n in users :: Restored(t, users[n]))
  {
    hide ReadLine, ValidTable, UserInv, Savable, Unquoted, HasSpaces, LineWords, Restored;
    var lines := SaveLines(t, users, names);
    LoadSaved(t, hash, users, names, |names|);
    var loaded := Load(t, hash, lines).value;
    assert names[..|names|] == names;
    assert loaded.Keys == users.Keys;
    assert forall n | n in users :: n in names;
    assert loaded == map n | n in users :: Restored(t, users[n]);
  }

  lemma {:induction false} LoadSaved(t: Table, hash: Hash, users: Users, names: seq<string>, k: nat)
    requires ValidTable(t) && GoodHash(hash) && k <= |names|
    requires forall n | n in names :: n in users
    requires forall n | n in users ::
      UserInv(t, users[n]) && Savable(t, users[n]) && n != "" && Unquoted(n) && !HasSpaces(n)
    ensures
      var r := LoadLines(t, hash, map[DEFAULT_NAME := DefaultUser()], SaveLines(t, users, names), k);
      && r.Some?
      && r.value.Keys == (set n | n in names[..k]) + {DEFAULT_NAME}
      && forall n | n in names[..k] :: r.value[n] == Restored(t, users[n])
  {
    hide ReadLine, ValidTable, UserInv, Savable, Unquoted, HasSpaces, LineWords, Restored, GoodHash, DefaultUser, Join;
    if k > 0 {
      LoadSaved(t, hash, users, names, k - 1);
      var n := names[k - 1];
      LineReadsBack(t, hash, n, users[n]);
      OneMoreName(names, k - 1);
    }
  }

  lemma OneMoreName(names: seq<string>, k: nat)
    requires k < |names|
    ensures forall n :: n in names[..k + 1] <==> n in names[..k] || n == names[k]
  {
    assert names[..k + 1] == names[..k] + [names[k]];
  }

  // ------------------------------------------------- when lines are divided as written

  lemma AllBareableParts(a: seq<string>, b: seq<string>)
    requires AllBareable(a + b)
    ensures AllBareable(a) && AllBareable(b)
  {
    hide Bareable;
    var c := a + b;
    forall i | 0 <= i < |a| ensures Bareable(a[i]) { assert c[i] == a[i]; }
    forall i | 0 <= i < |b| ensures Bareable(b[i]) { assert c[|a| + i] == b[i]; }
  }

  lemma BareableEnd(a: string, b: string)
    requires Bareable(a + b)
    ensures Unquoted(b)
  {
    forall i | 0 <= i < |b|
      ensures !EndsBare(b[i]) && b[i] != '"' && b[i] != '\'' && b[i] != '\0'
    {
      assert (a + b)[|a| + i] == b[i];
    }
  }

  lemma {:induction false} RulesOfCommand(t: Table, u: User, k: nat, n: nat)
    requires k < n <= |t| && AllBareable(DescribeCommands(t, u, n).rules)
    ensures AllBareable(CommandRules(u, DescribeCommands(t, u, k).bits, t[k]))
  {
    hide AllBareable, CommandRules;
    var d := DescribeCommands(t, u, n - 1);
    AllBareableParts(d.rules, CommandRules(u, d.bits, t[n - 1]));
    if k < n - 1 { RulesOfCommand(t, u, k, n - 1); }
  }

  lemma BareableSubs(t: Table, u: User, id: nat)
    requires UserInv(t, u) && id in u.subs && AllBareable(CommandDescription(t, u).rules)
    ensures forall i | 0 <= i < |u.subs[id]| :: Unquoted(u.subs[id][i])
  {
    hide AllBareable, Unquoted, DescribeCommands, Distinguished;
    assert id in Ids(t) && id !in u.bits;
    var k :| 0 <= k < |t| && t[k].id == id;
    var bits := DescribeCommands(t, u, k).bits;
    RulesOfCommand(t, u, k, |t|);
    var own := if (id in u.bits) != (id in bits) then [Sign(id in u.bits) + t[k].name] else [];
    assert CommandRules(u, bits, t[k]) == own + SubRules(t[k].name, u.subs[id]);
    AllBareableParts(own, SubRules(t[k].name, u.subs[id]));
    SubsOfRules(t[k].name, u.subs[id]);
  }

  lemma SubsOfRules(name: string, subs: seq<string>)
    requires AllBareable(SubRules(name, subs))
    ensures forall i | 0 <= i < |subs| :: Unquoted(subs[i])
  {
    hide Bareable, Unquoted;
    forall i | 0 <= i < |subs|
      ensures Unquoted(subs[i])
    {
      assert SubRules(name, subs)[i] == "+" + name + "|" + subs[i];
      BareableEnd("+" + name + "|", subs[i]);
    }
  }

  lemma BareablePatterns(u: User)
    requires AllBareable(Prefixed("~", u.patterns))
    ensures forall p | p in u.patterns :: Unquoted(p)
  {
    hide Bareable, Unquoted;
    forall i | 0 <= i < |u.patterns|
      ensures Unquoted(u.patterns[i])
    {
      assert Prefixed("~", u.patterns)[i] == "~" + u.patterns[i];
      BareableEnd("~", u.patterns[i]);
    }
  }

  lemma BareableIsSavable(t: Table, u: User)
    requires UserInv(t, u) && AllBareable(DescribeUser(t, u)) && forall i | 0 <= i < |t| :: Unquoted(t[i].name)
    ensures Savable(t, u)
  {
    hide AllBareable, Unquoted, CommandDescription, BitsInv, PasswordsOk, Prefixed;
    var front := (if u.enabled then ["on"] else []) + (if u.disabled then ["off"] else []) + (if u.noPass then ["nopass"] else [])
      + Prefixed("#", u.passwords);
    var patterns := if u.allKeys then ["~*"] else Prefixed("~", u.patterns);
    AllBareableParts(front + patterns, CommandDescription(t, u).rules);
    AllBareableParts(front, patterns);
    if !u.allKeys { BareablePatterns(u); }
    forall id | id in u.subs
      ensures forall i | 0 <= i < |u.subs[id]| :: Unquoted(u.subs[id][i])
    {
      BareableSubs(t, u, id);
    }
  }

  /** A saved line is divided into the words it was made of if and only if the name, the
      patterns and the subcommands of the user contain no separators and no quotes. */
  lemma LineSplitsIff(t: Table, name: string, u: User)
    requires ValidTable(t) && UserInv(t, u) && forall i | 0 <= i < |t| :: Unquoted(t[i].name)
    ensures
      var words := LineWords(t, name, u);
      Split(Join(words)) == Some(words) <==> Bareable(name) && Savable(t, u)
  {
    hide DescribeUser, UserInv, Savable, ValidTable, Join, Split, Bareable, Unquoted;
    var words := LineWords(t, name, u);
    Marks();
    ReadsBackIff(words);
    var head := ["user", name];
    assert words == head + DescribeUser(t, u) && words[1] == name;
    if AllBareable(words) {
      AllBareableParts(head, DescribeUser(t, u));
      BareableIsSavable(t, u);
    }
    if Bareable(name) && Savable(t, u) {
      DescriptionIsBareable(t, u);
      AllBareableConcat(head, DescribeUser(t, u));
    }
  }

  // -------------------------------------------------- a subcommand with a blank in it

  lemma {:induction false} LastFails(t: Table, hash: Hash, u: User, ops: seq<string>)
    requires ops != [] && ops[|ops| - 1] == "b"
    ensures SetAll(t, hash, u, ops).Err?
    decreases |ops|
  {
    hide SetUser;
    UnknownRule(t, hash, u);
    var r := SetUser(t, hash, u, ops[0]);
    if |ops| > 1 && r.Ok? { LastFails(t, hash, r.user, ops[1..]); }
  }

  lemma {:induction false} OneFaultIsAll(t: Table, hash: Hash, users: Users, lines: seq<string>, j: nat, k: nat)
    requires j < k <= |lines| && ReadLine(t, hash, lines[j]) == Faulty
    ensures LoadLines(t, hash, users, lines, k) == None
  {
    hide ReadLine;
    if j < k - 1 { OneFaultIsAll(t, hash, users, lines, j, k - 1); }
  }

  lemma UnknownRule(t: Table, hash: Hash, v: User)
    ensures SetUser(t, hash, v, "b").Err?
  {
    CStringPlain("b");
    assert LowerAll("b") == "b";
  }

  const CONFIG := Command("config", 7, {}, false)
  const SPACED := FRESH.(subs := map[7 := ["a b"]])

  lemma {:induction false} NoCategories(u: User, k: nat)
    requires k <= CATEGORIES && u == SPACED
    ensures DescribeCategories([CONFIG], u, k) == Described({}, ["-@all"])
  {
    hide CategoryName, Category, Members;
    if k > 0 {
      NoCategories(u, k - 1);
      var c := CategoryAt(k - 1);
      assert Count([CONFIG], u, c, true, 0) == 0 && Count([CONFIG], u, c, false, 0) == 0;
    }
  }

  lemma SpacedDescription()
    ensures DescribeUser([CONFIG], SPACED) == ["off", "-@all", "+config|a b"]
  {
    hide DescribeCategories;
    NoCategories(SPACED, CATEGORIES);
    assert DescribeCommands([CONFIG], SPACED, 0) == Described({}, ["-@all"]);
    SpacedRule();
    assert SubRules("config", ["a b"]) == ["+config|a b"];
  }

  lemma SpacedRule()
    ensures "+" + "config" + "|" + "a b" == "+config|a b"
  {
    assert "+" + "config" == "+config" && "+config" + "|" == "+config|";
  }

  lemma SpacedAccepted(hash: Hash)
    ensures SetUser([CONFIG], hash, FRESH, "+config|a b") == Ok(SPACED)
  {
    hide SetUser, SetBit;
    SpacedTable();
    SpacedRule();
    ReadSub([CONFIG], hash, FRESH, CONFIG, "a b");
    SpacedSub();
  }

  lemma SpacedTable()
    ensures ValidTable([CONFIG]) && CONFIG in [CONFIG]
  {
  }

  lemma SpacedSub()
    ensures SetBit(AddSub(FRESH, 7, "a b"), 7, false) == SPACED
  {
    assert AddTo([], "a b") == ["a b"];
  }

  lemma SpacedLine()
    ensures Join(["user", "alice", "off", "-@all", "+config|a b"]) == Join(["user", "alice", "off", "-@all", "+config|a", "b"])
  {
  }

  lemma SpacedFaulty(hash: Hash)
    ensures ReadLine([CONFIG], hash, Join(["user", "alice", "off", "-@all", "+config|a", "b"])) == Faulty
  {
    hide SetUser, Split, Join, SetAll;
    var words := ["user", "alice", "off", "-@all", "+config|a", "b"];
    ReadsBackIff(words);
    var ops := ["off", "-@all", "+config|a", "b"];
    assert words[2..] == ops;
    LastFails([CONFIG], hash, FRESH, ops);
  }

  /** The rule +config|a b is accepted; what is saved for the user cannot be loaded, and with
      it the whole file. */
  lemma SpacedSubcommandExample(hash: Hash, users: Users, names: seq<string>)
    requires "alice" in names && forall n | n in names :: n in users
    requires users["alice"] == SPACED
    ensures SetUser([CONFIG], hash, FRESH, "+config|a b") == Ok(SPACED)
    ensures Load([CONFIG], hash, SaveLines([CONFIG], users, names)) == None
  {
    hide ReadLine, Join, DescribeUser, SetUser;
    SpacedAccepted(hash);
    SpacedDescription();
    SpacedLine();
    SpacedFaulty(hash);
    var lines := SaveLines([CONFIG], users, names);
    var j :| 0 <= j < |names| && names[j] == "alice";
    assert ["user", "alice"] + ["off", "-@all", "+config|a b"] == ["user", "alice", "off", "-@all", "+config|a b"];
    OneFaultIsAll([CONFIG], hash, map[DEFAULT_NAME := DefaultUser()], lines, j, |lines|);
  }

  // ------------------------------------------------------------- the loading itself

  lemma {:induction false} SetAllSnoc(t: Table, hash: Hash, u: User, ops: seq<string>, j: nat)
    requires j < |ops|
    ensures
      var before := SetAll(t, hash, u, ops[..j]);
      SetAll(t, hash, u, ops[..j + 1]) == if before.Err? then before else SetUser(t, hash, before.user, ops[j])
    decreases j
  {
    hide SetUser;
    if j == 0 {
      assert ops[..0] == [] && ops[..1] == [ops[0]];
      SetAllOne(t, hash, u, ops[0]);
    } else {
      assert ops[..j][1..] == ops[1..][..j - 1] && ops[..j + 1][1..] == ops[1..][..j];
      var r := SetUser(t, hash, u, ops[0]);
      if r.Ok? { SetAllSnoc(t, hash, r.user, ops[1..], j - 1); }
    }
  }

  /** Tries the rules on a user that is only there for that; all of them, to report
      every error. */
  method Validate(t: Table, hash: Hash, fake: User, ops: seq<string>) returns (u: User, ok: bool)
    requires fake == FRESH
    ensures ok <==> SetAll(t, hash, FRESH, ops).Ok?
  {
    hide SetUser;
    u, ok := fake, true;
    for j := 0 to |ops|
      invariant ok <==> SetAll(t, hash, FRESH, ops[..j]).Ok?
      invariant ok ==> u == SetAll(t, hash, FRESH, ops[..j]).user
    {
      SetAllSnoc(t, hash, FRESH, ops, j);
      var r := SetUser(t, hash, u, ops[j]);
      if r.Ok? { u := r.user; } else { ok := false; }
    }
    assert ops[..|ops|] == ops;
  }

  /** The rules of a valid line; that none of them is refused is asserted. */
  method Define(t: Table, hash: Hash, ops: seq<string>, created: User) returns (u: User)
    requires created == FRESH && SetAll(t, hash, FRESH, ops).Ok?
    ensures u == SetAll(t, hash, FRESH, ops).user
  {
    hide SetUser;
    u := created;
    for j := 0 to |ops|
      invariant SetAll(t, hash, FRESH, ops[..j]) == Ok(u)
    {
      SetAllSnoc(t, hash, FRESH, ops, j);
      PrefixIsOk(t, hash, FRESH, ops, j + 1);
      var r := SetUser(t, hash, u, ops[j]);
      assert r.Ok?;
      u := r.user;
    }
    assert ops[..|ops|] == ops;
  }

  lemma {:induction false} PrefixIsOk(t: Table, hash: Hash, u: User, ops: seq<string>, j: nat)
    requires j <= |ops| && SetAll(t, hash, u, ops).Ok?
    ensures SetAll(t, hash, u, ops[..j]).Ok?
    decreases j
  {
    hide SetUser;
    if j > 0 {
      assert ops[..j][1..] == ops[1..][..j - 1];
      PrefixIsOk(t, hash, SetUser(t, hash, u, ops[0]).user, ops[1..], j - 1);
    }
  }

  /** Loads a file into new users. A single error leaves the users as they were. */
  method LoadFromFile(t: Table, hash: Hash, users: Users, lines: seq<string>) returns (now: Users, ok: bool)
    ensures ok <==> Load(t, hash, lines).Some?
    ensures now == if ok then Load(t, hash, lines).value else users
  {
    hide SetAll, Split, HasSpaces, DefaultUser;
    var fake := FRESH;
    now, ok := map[DEFAULT_NAME := DefaultUser()], true;
    for i := 0 to |lines|
      invariant LoadLines(t, hash, map[DEFAULT_NAME := DefaultUser()], lines, i) == if ok then Some(now) else None
    {
      var argv := Split(lines[i]);
      if argv.None? {
        ok := false;
        continue;
      }
      var words := argv.value;
      if words == [] { continue; }
      if words[0] != "user" || |words| < 2 || HasSpaces(words[1]) {
        ok := false;
        continue;
      }
      fake := Reset(fake);
      var valid: bool;
      fake, valid := Validate(t, hash, fake, words[2..]);
      if !valid { ok := false; }
      if !ok { continue; }
      var u := Define(t, hash, words[2..], if words[1] in now then Reset(now[words[1]]) else FRESH);
      now := now[words[1] := u];
    }
    if !ok { now := users; }
  }
}
