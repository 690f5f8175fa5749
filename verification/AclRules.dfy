/** What every rule does to a user, by the text of the rule. */
module AclRules {
  import opened Wrappers
  import opened Strings
  import opened SplitArgs
  import opened AclModel
  import opened AclDescribe

  // ------------------------------------------------------------------ single words

  // The user after a rule of one word, in lower case.
  ghost predicate WordDone(u: User, low: string, v: User) {
    && (low == "on" ==> v == u.(enabled := true, disabled := false))
    && (low == "off" ==> v == u.(enabled := false, disabled := true))
    && (low == "allkeys" || low == "~*" ==> v == u.(allKeys := true, patterns := []))
    && (low == "resetkeys" ==> v == u.(allKeys := false, patterns := []))
    && (low == "nopass" ==> v == u.(noPass := true, passwords := []))
    && (low == "resetpass" ==> v == u.(noPass := false, passwords := []))
    && (low == "nocommands" || low == "-@all" ==> v == u.(allCommands := false, bits := {}, subs := map[]))
    && (low == "allcommands" || low == "+@all" ==>
          && v == u.(allCommands := true, bits := v.bits, subs := map[])
          && forall id: nat :: id in v.bits <==> id < COMMAND_BITS)
  }

  ghost predicate IsWord(low: string) {
    || low == "on" || low == "off" || low == "allkeys" || low == "~*" || low == "resetkeys" || low == "nopass"
    || low == "resetpass" || low == "nocommands" || low == "-@all" || low == "allcommands" || low == "+@all"
  }

  /** Rules of one word, in any case of letters: resetkeys leaves no pattern, resetpass no
      password, and so on. */
  lemma WordsAre(t: Table, hash: Hash, u: User, op: string)
    requires IsWord(LowerAll(CString(op)))
    ensures
      var r := SetUser(t, hash, u, op);
      r.Ok? && WordDone(u, LowerAll(CString(op)), r.user)
  {
    hide LowerAll, CString;
    var word := WordOf(LowerAll(CString(op)));
    assert word.Some?;
    assert SetUser(t, hash, u, op) == Ok(SetWord(u, word.value));
  }

  /** reset leaves a user that may do nothing, and is off. */
  lemma ResetIs(t: Table, hash: Hash, u: User, op: string)
    requires LowerAll(CString(op)) == "reset"
    ensures SetUser(t, hash, u, op) == Ok(User(false, true, false, false, false, {}, [], [], map[]))
  {
    var c := CString(op);
    CStringFacts(op);
    assert LowerAll(c)[0] == 'r' && c != "";
    assert WordOf("reset").None? by { assert "reset"[0] == 'r' && "resetkeys"[5] == 'k' && "resetpass"[5] == 'p'; }
  }

  // -------------------------------------------------------------------- passwords

  // The password h was added, at the end, unless it was there.
  ghost predicate Added(u: User, r: Outcome, h: string) {
    && r.Ok? && r.user == u.(passwords := r.user.passwords, noPass := false)
    && u.passwords <= r.user.passwords && NoDup(r.user.passwords)
    && forall p :: p in r.user.passwords <==> p in u.passwords || p == h
  }

  // The password h was taken out, or refused if it was not there.
  ghost predicate Removed(u: User, r: Outcome, h: string) {
    if h in u.passwords then
      && r.Ok? && r.user == u.(passwords := r.user.passwords) && NoDup(r.user.passwords)
      && forall p :: p in r.user.passwords <==> p in u.passwords && p != h
    else r == Err(ENODEV)
  }

  lemma MarkIsNoWord(op: string)
    requires op != "" && (op[0] == '>' || op[0] == '<' || op[0] == '#' || op[0] == '!')
    ensures CString(op) != "" && CString(op)[0] == op[0] && WordOf(LowerAll(CString(op))).None?
  {
    CStringFacts(op);
    assert LowerAll(CString(op))[0] == op[0];
  }

  /** Passwords are added and removed by themselves or by their hashes: afterwards the user has
      it, or does not have it, and has all others as before. */
  lemma PasswordRulesAre(t: Table, hash: Hash, u: User, pw: string)
    requires NoDup(u.passwords)
    ensures Added(u, SetUser(t, hash, u, ">" + pw), hash(pw))
    ensures Removed(u, SetUser(t, hash, u, "<" + pw), hash(pw))
    ensures
      var r := SetUser(t, hash, u, "#" + pw);
      if |pw| == 64 && InHex(pw) then Added(u, r, pw) else r == Err(EBADMSG)
    ensures
      var r := SetUser(t, hash, u, "!" + pw);
      if |pw| == 64 then Removed(u, r, pw) else r == Err(EBADMSG)
  {
    hide CString, LowerAll, WordOf, Added, Removed, IsHash, AddPassword, RemovePassword, InHex;
    HashIff(pw);
    MarkIsNoWord(">" + pw);
    MarkIsNoWord("<" + pw);
    MarkIsNoWord("#" + pw);
    MarkIsNoWord("!" + pw);
    assert (">" + pw)[1..] == pw && ("<" + pw)[1..] == pw && ("#" + pw)[1..] == pw && ("!" + pw)[1..] == pw;
    PasswordIs(u, pw);
    PasswordIs(u, hash(pw));
  }

  ghost predicate InHex(s: string) { forall c | c in s :: c in "0123456789abcdef" }

  lemma HashIff(s: string)
    ensures IsHash(s) <==> |s| == 64 && InHex(s)
  {
    hide InHex;
    assert InHex(s) <==> forall i | 0 <= i < |s| :: IsHex(s[i]) by { HexIff(s); }
  }

  lemma HexIff(s: string)
    ensures InHex(s) <==> forall i | 0 <= i < |s| :: IsHex(s[i])
  {
    forall c: char ensures IsHex(c) <==> c in "0123456789abcdef" { Digit(c); }
    hide IsHex;
    if InHex(s) { forall i | 0 <= i < |s| ensures IsHex(s[i]) { assert s[i] in s; } }
  }

  lemma Digit(c: char)
    ensures IsHex(c) <==> c in "0123456789abcdef"
  {
    var digits := "0123456789abcdef";
    if '0' <= c <= '9' { assert digits[c as int - '0' as int] == c; }
    if 'a' <= c <= 'f' { assert digits[10 + c as int - 'a' as int] == c; }
  }

  lemma PasswordIs(u: User, h: string)
    requires NoDup(u.passwords)
    ensures Added(u, Ok(AddPassword(u, h)), h) && Removed(u, RemovePassword(u, h), h)
  {
    AddOnceKeeps(u.passwords, h);
    RemoveFirstKeeps(u.passwords, h);
  }

  // --------------------------------------------------------------------- patterns

  ghost predicate BlankIn(p: string) {
    exists c :: c in p && (c in " \t\n\r" || c == 11 as char || c == 12 as char || c == '\0')
  }

  lemma BlankIff(p: string)
    ensures HasSpaces(p) <==> BlankIn(p)
  {
    if HasSpaces(p) {
      var i :| 0 <= i < |p| && (IsBlank(p[i]) || p[i] == '\0');
      assert p[i] in p;
    }
    if c :| c in p && (c in " \t\n\r" || c == 11 as char || c == 12 as char || c == '\0') {
      var i :| 0 <= i < |p| && p[i] == c;
      assert IsBlank(p[i]) || p[i] == '\0';
    }
  }

  /** A key pattern is added, at the end, unless it was there; not for a user that may use all
      keys, and not one with blanks in it. */
  lemma PatternRuleIs(t: Table, hash: Hash, u: User, p: string)
    requires LowerAll(CString("~" + p)) != "~*"
    ensures
      SetUser(t, hash, u, "~" + p)
      == if u.allKeys then Err(EEXIST)
         else if BlankIn(p) then Err(EINVAL)
         else Ok(u.(patterns := if p in u.patterns then u.patterns else u.patterns + [p]))
  {
    hide WordOf, HasSpaces, BlankIn, LowerAll;
    var op := "~" + p;
    BlankIff(p);
    CStringFacts(op);
    assert op[1..] == p && CString(op) != "" && CString(op)[0] == '~';
    assert LowerAll(CString(op)) != "" && LowerAll(CString(op))[0] == '~' by { FirstIsLower(CString(op)); }
    NotWord(LowerAll(CString(op)));
  }

  lemma FirstIsLower(c: string)
    requires c != "" && c[0] == '~'
    ensures LowerAll(c) != "" && LowerAll(c)[0] == '~'
  {
  }

  // --------------------------------------------------------------------- commands

  // Names are spelled without bars and NULs.
  lemma NameOf(t: Table, k: nat, name: string)
    requires ValidTable(t) && k < |t| && LowerAll(name) == LowerAll(t[k].name)
    ensures name != "" && name[0] != '@' && '\0' !in name && Bar(name).None?
    ensures Lookup(t, LowerAll(name)) == Some(t[k])
  {
    LookupOwn(t, k);
    var s := t[k].name;
    assert |LowerAll(name)| == |name| && |LowerAll(s)| == |s|;
    forall i | 0 <= i < |name|
      ensures name[i] != '\0' && name[i] != '|' && (i == 0 ==> name[i] != '@')
    {
      assert LowerAll(name)[i] == Lower(name[i]) == Lower(s[i]);
    }
  }

  /** +name and -name, in any case of letters: the command is allowed or denied as a whole, and
      no other command changes; denying one ends that all commands are allowed. */
  lemma CommandRulesAre(t: Table, hash: Hash, u: User, k: nat, name: string)
    requires ValidTable(t) && k < |t| && LowerAll(name) == LowerAll(t[k].name)
    ensures SetUser(t, hash, u, "+" + name) == Ok(u.(bits := u.bits + {t[k].id}, subs := u.subs - {t[k].id}))
    ensures SetUser(t, hash, u, "-" + name)
         == Ok(u.(bits := u.bits - {t[k].id}, subs := u.subs - {t[k].id}, allCommands := false))
  {
    hide SetUser, LowerAll, Lookup, Bar;
    NameOf(t, k, name);
    ReadCommand(t, hash, u, true, name);
    ReadCommand(t, hash, u, false, name);
    assert "+" + name == Sign(true) + name && "-" + name == Sign(false) + name;
    assert t[k].id < COMMAND_BITS;
  }

  /** +name|sub: the subcommand is listed, at the end, unless it was in some case of letters;
      refused for a command that is allowed as a whole. */
  lemma SubRuleIs(t: Table, hash: Hash, u: User, k: nat, name: string, sub: string)
    requires ValidTable(t) && k < |t| && LowerAll(name) == LowerAll(t[k].name) && '\0' !in sub
    ensures
      var r, id := SetUser(t, hash, u, "+" + name + "|" + sub), t[k].id;
      if sub == "" then r == Err(EINVAL)
      else if id in u.bits then r == Err(EBUSY)
      else
        var was := if id in u.subs then u.subs[id] else [];
        r == Ok(u.(allCommands := false,
                   subs := u.subs[id := if exists s | s in was :: LowerAll(s) == LowerAll(sub) then was else was + [sub]]))
  {
    hide SetUser, LowerAll, Lookup, Bar;
    NameOf(t, k, name);
    var whole := name + "|" + sub;
    assert whole[..|name|] == name && whole[|name|] == '|' && whole[|name| + 1..] == sub;
    NoBar(name);
    BarAt(whole, |name|);
    assert '\0' !in whole && whole[0] == name[0];
    assert "+" + name + "|" + sub == Sign(true) + whole;
    ReadCommand(t, hash, u, true, whole);
    SubAdded(u, t[k].id, sub);
    assert t[k].id < COMMAND_BITS;
  }

  lemma NoBar(name: string)
    requires Bar(name).None?
    ensures '|' !in name
  {
  }

  lemma SubAdded(u: User, id: nat, sub: string)
    ensures
      var was := if id in u.subs then u.subs[id] else [];
      AddTo(Subs(u, id), sub) == if exists s | s in was :: LowerAll(s) == LowerAll(sub) then was else was + [sub]
  {
    hide LowerAll;
    var was := Subs(u, id);
    if s :| s in was && LowerAll(s) == LowerAll(sub) {
      var i :| 0 <= i < |was| && was[i] == s;
      assert LowerAll(was[i]) == LowerAll(sub);
    }
  }

  /** A name that no command has is refused. */
  lemma UnknownRuleIs(t: Table, hash: Hash, u: User, on: bool, name: string)
    requires name != "" && name[0] != '@' && '\0' !in name && '|' !in name
    requires forall i | 0 <= i < |t| :: LowerAll(t[i].name) != LowerAll(name)
    ensures SetUser(t, hash, u, Sign(on) + name) == Err(ENOENT)
  {
    hide SetUser, LowerAll;
    ReadCommand(t, hash, u, on, name);
    assert Bar(name).None?;
    NotFound(t, LowerAll(name));
  }

  lemma {:induction false} NotFound(t: Table, low: string)
    requires forall i | 0 <= i < |t| :: LowerAll(t[i].name) != low
    ensures Lookup(t, low).None?
  {
    hide LowerAll;
    if t != [] { NotFound(t[1..], low); }
  }

  // ------------------------------------------------------------------- categories

  // Length, first and fourth character: enough to tell the names apart.
  function Shape(s: string): (nat, char, char) {
    (|s|, if s == "" then ' ' else s[0], if |s| < 4 then ' ' else s[3])
  }

  function ShapeAt(j: nat): (nat, char, char)
    requires j < CATEGORIES
  {
    match j
    case 0 => (8, 'k', 's')
    case 1 => (4, 'r', 'd')
    case 2 => (5, 'w', 't')
    case 3 => (3, 's', ' ')
    case 4 => (9, 's', 't')
    case 5 => (4, 'l', 't')
    case 6 => (4, 'h', 'h')
    case 7 => (6, 's', 'i')
    case 8 => (6, 'b', 'm')
    case 9 => (11, 'h', 'e')
    case 10 => (3, 'g', ' ')
    case 11 => (6, 's', 'e')
    case 12 => (6, 'p', 's')
    case 13 => (5, 'a', 'i')
    case 14 => (4, 'f', 't')
    case 15 => (4, 's', 'w')
    case 16 => (8, 'b', 'c')
    case 17 => (9, 'd', 'g')
    case 18 => (10, 'c', 'n')
    case 19 => (11, 't', 'n')
    case _ => (9, 's', 'i')
  }

  lemma ShapeIs(j: nat)
    requires j < CATEGORIES
    ensures Shape(CategoryName(j)) == ShapeAt(j) && LowerAll(CategoryName(j)) == CategoryName(j)
  {
    if j < 11 { NameIsWord(j); } else { LateNameIsWord(j); }
    hide Letters;
    assert LowerAll(CategoryName(j)) == CategoryName(j) by { LettersAreLower(CategoryName(j)); }
  }

  lemma LettersAreLower(s: string)
    requires Letters(s)
    ensures LowerAll(s) == s
  {
  }

  // No two categories have the same name.
  lemma CategoryIs(j: nat)
    requires j < CATEGORIES
    ensures CategoryAt(j) == j
  {
    hide CategoryName, LowerAll, Shape;
    ShapeIs(j);
    ShapeIs(Category(LowerAll(CategoryName(j)), 0).value);
  }

  // Some command with this identifier is of the category and not of a module.
  ghost predicate OfCategory(t: Table, category: nat, id: nat) {
    exists i :: 0 <= i < |t| && t[i].id == id && category in t[i].categories && !t[i].fromModule
  }

  /** +@name and -@name: exactly the commands of the category that are not of modules are allowed
      or denied, and their subcommands forgotten; everybody else's rights stay. */
  lemma CategoryRulesAre(t: Table, hash: Hash, u: User, on: bool, j: nat)
    requires j < CATEGORIES
    ensures
      var r := SetUser(t, hash, u, Sign(on) + "@" + CategoryName(j));
      && r.Ok? && r.user == u.(bits := r.user.bits, subs := r.user.subs, allCommands := r.user.allCommands)
      && (forall id :: id in r.user.bits <==> if OfCategory(t, j, id) then on else id in u.bits)
      && (forall id :: id in r.user.subs <==> id in u.subs && !OfCategory(t, j, id))
      && (forall id | id in r.user.subs :: r.user.subs[id] == u.subs[id])
      && (r.user.allCommands <==> u.allCommands && (on || forall id :: !OfCategory(t, j, id)))
  {
    hide SetUser, CategoryName, LowerAll;
    ReadCategory(t, hash, u, on, j);
    CategoryIs(j);
    forall id ensures id in Members(t, j) <==> OfCategory(t, j, id) {}
    if Members(t, j) != {} { var id :| id in Members(t, j); }
  }

  // ------------------------------------------------------- which categories are named

  ghost function OfThese(t: Table, u: User, category: nat, on: bool, k: nat): set<nat>
    requires k <= |t|
  {
    set i | 0 <= i < k && category in t[i].categories && (t[i].id in u.bits) == on
  }

  lemma {:induction false} CountIs(t: Table, u: User, category: nat, on: bool, k: nat)
    requires k <= |t|
    ensures Count(t, u, category, on, k) == |OfThese(t, u, category, on, k)|
  {
    hide OfThese;
    if k == 0 {
      NoneOfThese(t, u, category, on);
    } else {
      CountIs(t, u, category, on, k - 1);
      OneMoreOfThese(t, u, category, on, k);
    }
  }

  lemma NoneOfThese(t: Table, u: User, category: nat, on: bool)
    ensures OfThese(t, u, category, on, 0) == {}
  {
  }

  lemma OneMoreOfThese(t: Table, u: User, category: nat, on: bool, k: nat)
    requires 0 < k <= |t|
    ensures
      var here := category in t[k - 1].categories && (t[k - 1].id in u.bits) == on;
      |OfThese(t, u, category, on, k)| == |OfThese(t, u, category, on, k - 1)| + if here then 1 else 0
  {
    var here := category in t[k - 1].categories && (t[k - 1].id in u.bits) == on;
    var before, now := OfThese(t, u, category, on, k - 1), OfThese(t, u, category, on, k);
    forall i ensures i in now <==> i in before || (here && i == k - 1) {}
    hide OfThese;
    assert now == if here then before + {k - 1} else before;
  }

  /** A description names a category exactly if more of its commands are allowed than denied, for
      a user that may not run future commands, or the other way round. */
  lemma CategoryNamedIff(t: Table, u: User, j: nat)
    requires j < CATEGORIES
    ensures
      var on, off := |OfThese(t, u, j, true, |t|)|, |OfThese(t, u, j, false, |t|)|;
      CategoryRule(u, j) in DescribeCategories(t, u, CATEGORIES).rules <==>
      if FUTURE_BIT in u.bits then off > on else on > off
  {
    hide CategoryName;
    CountIs(t, u, j, true, |t|);
    CountIs(t, u, j, false, |t|);
    CategoryIs(j);
    NamedIffWanted(t, u, CATEGORIES, j);
  }

  lemma {:induction false} NamedIffWanted(t: Table, u: User, k: nat, j: nat)
    requires k <= CATEGORIES && j < CATEGORIES
    ensures CategoryRule(u, j) in DescribeCategories(t, u, k).rules <==> j < k && Wanted(t, u, CategoryAt(j))
    decreases k
  {
    hide Wanted, CategoryName, LowerAll, CategoryRule, Members, Sign;
    if k == 0 {
      CategoryNames(j);
      assert CategoryName(j) != "all" by { ShapeIs(j); }
      RuleIs(u, j);
      NotAll(CategoryRule(u, j), CategoryName(j), Additive(u));
    } else {
      NamedIffWanted(t, u, k - 1, j);
      if j != k - 1 { RulesDiffer(u, j, k - 1); }
    }
  }

  lemma RuleIs(u: User, j: nat)
    requires j < CATEGORIES
    ensures CategoryRule(u, j) == Sign(Additive(u)) + "@" + CategoryName(j)
  {
  }

  lemma NotAll(rule: string, name: string, additive: bool)
    requires rule == Sign(additive) + "@" + name && name != "all"
    ensures rule != "-@all" && rule != "+@all"
  {
    assert rule[2..] == name && "-@all"[2..] == "all" && "+@all"[2..] == "all";
  }

  lemma RulesDiffer(u: User, i: nat, j: nat)
    requires i < CATEGORIES && j < CATEGORIES && i != j
    ensures CategoryRule(u, i) != CategoryRule(u, j)
  {
    hide CategoryName, Shape;
    ShapeIs(i);
    ShapeIs(j);
    assert CategoryRule(u, i)[2..] == CategoryName(i) && CategoryRule(u, j)[2..] == CategoryName(j);
  }
}
