/** Access rules of users: the interpreter of single rules, and the description that,
    replayed on a new user, gives the same rights. */
module AclModel {
  import opened Wrappers
  import opened Strings
  import opened SplitArgs

  const COMMAND_BITS: nat := 1024
  const FUTURE_BIT: nat := 1023       // set by +@all only: commands yet to be loaded
  const HASH_LEN: nat := 64

  const CATEGORIES: nat := 21

  function CategoryName(j: nat): string
    requires j < CATEGORIES
  {
    match j
    case 0 => "keyspace"
    case 1 => "read"
    case 2 => "write"
    case 3 => "set"
    case 4 => "sortedset"
    case 5 => "list"
    case 6 => "hash"
    case 7 => "string"
    case 8 => "bitmap"
    case 9 => "hyperloglog"
    case 10 => "geo"
    case 11 => "stream"
    case 12 => "pubsub"
    case 13 => "admin"
    case 14 => "fast"
    case 15 => "slow"
    case 16 => "blocking"
    case 17 => "dangerous"
    case 18 => "connection"
    case 19 => "transaction"
    case _ => "scripting"
  }

  // categories holds positions in the list of category names.
  datatype Command = Command(name: string, id: nat, categories: set<nat>, fromModule: bool)

  type Table = seq<Command>

  datatype User = User(
    enabled: bool,
    disabled: bool,
    allKeys: bool,
    allCommands: bool,
    noPass: bool,
    bits: set<nat>,
    passwords: seq<string>,
    patterns: seq<string>,
    subs: map<nat, seq<string>>)

  const FRESH := User(false, true, false, false, false, {}, [], [], map[])

  datatype Errno = EINVAL | ENOENT | EBUSY | EEXIST | ENODEV | EBADMSG

  datatype Outcome = Ok(user: User) | Err(errno: Errno)

  type Hash = string -> string

  // ------------------------------------------------------------------ the table

  ghost predicate WellNamed(name: string) {
    name != "" && name[0] != '@' && forall i | 0 <= i < |name| :: name[i] != '\0' && name[i] != '|'
  }

  /** Names differ even when case is ignored; ids differ, fit the bitmap and leave its
      last bit alone. */
  ghost predicate ValidTable(t: Table) {
    && (forall i | 0 <= i < |t| :: WellNamed(t[i].name) && t[i].id < FUTURE_BIT)
    && (forall i, j | 0 <= i < j < |t| :: t[i].id != t[j].id && LowerAll(t[i].name) != LowerAll(t[j].name))
  }

  function Lookup(t: Table, low: string): (r: Option<Command>)
    ensures r.Some? ==> r.value in t && LowerAll(r.value.name) == low
    ensures r.None? ==> forall i | 0 <= i < |t| :: LowerAll(t[i].name) != low
  {
    if t == [] then None
    else if LowerAll(t[0].name) == low then Some(t[0])
    else Lookup(t[1..], low)
  }

  lemma LookupOwn(t: Table, k: nat)
    requires ValidTable(t) && k < |t|
    ensures Lookup(t, LowerAll(t[k].name)) == Some(t[k])
  {
  }

  // The category of a name, from position j on.
  function Category(low: string, j: nat): (r: Option<nat>)
    requires j <= CATEGORIES
    ensures r.Some? ==> r.value < CATEGORIES && LowerAll(CategoryName(r.value)) == low
    ensures r.None? ==> forall i | j <= i < CATEGORIES :: LowerAll(CategoryName(i)) != low
    decreases CATEGORIES - j
  {
    if j == CATEGORIES then None
    else if LowerAll(CategoryName(j)) == low then Some(j)
    else Category(low, j + 1)
  }

  function Ids(t: Table): set<nat> { set i | 0 <= i < |t| :: t[i].id }

  predicate IsBit(i: nat) { i < COMMAND_BITS }

  function AllBits(): set<nat> { set i: nat | i < COMMAND_BITS && IsBit(i) }

  // Commands of a category; those of modules are not affected by category rules.
  function Members(t: Table, category: nat): set<nat> {
    set i | 0 <= i < |t| && category in t[i].categories && !t[i].fromModule :: t[i].id
  }

  // -------------------------------------------------------------- rules, one by one

  predicate HasSpaces(s: string) { exists i :: 0 <= i < |s| && (IsBlank(s[i]) || s[i] == '\0') }

  predicate IsHex(c: char) { 'a' <= c <= 'f' || '0' <= c <= '9' }

  predicate IsHash(s: string) { |s| == HASH_LEN && forall i | 0 <= i < |s| :: IsHex(s[i]) }

  function SetBit(u: User, id: nat, on: bool): User {
    u.(allCommands := u.allCommands && on,
       bits := if id >= COMMAND_BITS then u.bits else if on then u.bits + {id} else u.bits - {id})
  }

  function SetCategory(t: Table, u: User, category: nat, on: bool): User {
    var ids := Members(t, category);
    u.(allCommands := u.allCommands && (on || ids == {}),
       bits := if on then u.bits + ids else u.bits - ids,
       subs := u.subs - ids)
  }

  function Subs(u: User, id: nat): seq<string> { if id in u.subs then u.subs[id] else [] }

  function AddTo(list: seq<string>, sub: string): seq<string> {
    if exists i :: 0 <= i < |list| && LowerAll(list[i]) == LowerAll(sub) then list else list + [sub]
  }

  function AddSub(u: User, id: nat, sub: string): User {
    u.(subs := u.subs[id := AddTo(Subs(u, id), sub)])
  }

  function AddOnce(list: seq<string>, s: string): seq<string> { if s in list then list else list + [s] }

  function RemoveFirst(list: seq<string>, s: string): seq<string> {
    if list == [] then []
    else if list[0] == s then list[1..]
    else [list[0]] + RemoveFirst(list[1..], s)
  }

  function AddPassword(u: User, hashed: string): User {
    u.(passwords := AddOnce(u.passwords, hashed), noPass := false)
  }

  function RemovePassword(u: User, hashed: string): Outcome {
    if hashed in u.passwords then Ok(u.(passwords := RemoveFirst(u.passwords, hashed))) else Err(ENODEV)
  }

  // A name up to the first '|', and what follows it.
  function Bar(s: string): (r: Option<nat>)
    ensures r.Some? ==> r.value < |s| && s[r.value] == '|' && '|' !in s[..r.value]
    ensures r.None? ==> '|' !in s
  {
    if s == "" then None
    else if s[0] == '|' then Some(0)
    else
      var p := Bar(s[1..]);
      if p.None? then None
      else
        assert s[..p.value + 1] == [s[0]] + s[1..][..p.value];
        Some(p.value + 1)
  }

  // "+name" or "+name|subcommand".
  function Allow(t: Table, u: User, name: string): Outcome {
    var bar := Bar(name);
    if bar.None? then
      var cmd := Lookup(t, LowerAll(name));
      if cmd.None? then Err(ENOENT)
      else Ok(SetBit(u, cmd.value.id, true).(subs := u.subs - {cmd.value.id}))
    else
      var cmd, sub := Lookup(t, LowerAll(name[..bar.value])), name[bar.value + 1..];
      if cmd.None? then Err(ENOENT)
      else if sub == "" then Err(EINVAL)
      else if cmd.value.id in u.bits then Err(EBUSY)
      else Ok(SetBit(AddSub(u, cmd.value.id, sub), cmd.value.id, false))
  }

  function Deny(t: Table, u: User, name: string): Outcome {
    var cmd := Lookup(t, LowerAll(name));
    if cmd.None? then Err(ENOENT)
    else Ok(SetBit(u, cmd.value.id, false).(subs := u.subs - {cmd.value.id}))
  }

  function Reset(u: User): User {
    u.(noPass := false, passwords := [], allKeys := false, patterns := [], disabled := true,
       enabled := false, bits := {}, allCommands := false, subs := map[])
  }

  // Rules that are single words.
  datatype Word = On | Off | AllKeys | ResetKeys | AllCommands | NoCommands | NoPass | ResetPass

  function WordOf(low: string): Option<Word> {
    if low == "on" then Some(On)
    else if low == "off" then Some(Off)
    else if low == "allkeys" || low == "~*" then Some(AllKeys)
    else if low == "resetkeys" then Some(ResetKeys)
    else if low == "allcommands" || low == "+@all" then Some(AllCommands)
    else if low == "nocommands" || low == "-@all" then Some(NoCommands)
    else if low == "nopass" then Some(NoPass)
    else if low == "resetpass" then Some(ResetPass)
    else None
  }

  function SetWord(u: User, word: Word): User {
    match word
    case On => u.(enabled := true, disabled := false)
    case Off => u.(disabled := true, enabled := false)
    case AllKeys => u.(allKeys := true, patterns := [])
    case ResetKeys => u.(allKeys := false, patterns := [])
    case AllCommands => u.(bits := AllBits(), allCommands := true, subs := map[])
    case NoCommands => u.(bits := {}, allCommands := false, subs := map[])
    case NoPass => u.(noPass := true, passwords := [])
    case ResetPass => u.(noPass := false, passwords := [])
  }

  /** One rule. On an error the user is as before. */
  function SetUser(t: Table, hash: Hash, u: User, op: string): Outcome {
    var c := CString(op);
    var word := WordOf(LowerAll(c));
    if word.Some? then Ok(SetWord(u, word.value))
    else if c == "" then Err(EINVAL)
    else SetOther(t, hash, u, op, c)
  }

  // Rules told apart by their first characters.
  function SetOther(t: Table, hash: Hash, u: User, op: string, c: string): Outcome
    requires op != "" && c == CString(op) && c != ""
  {
    if c[0] == '>' then Ok(AddPassword(u, hash(op[1..])))
    else if c[0] == '#' then if IsHash(op[1..]) then Ok(AddPassword(u, op[1..])) else Err(EBADMSG)
    else if c[0] == '<' then RemovePassword(u, hash(op[1..]))
    else if c[0] == '!' then if |op| == HASH_LEN + 1 then RemovePassword(u, op[1..]) else Err(EBADMSG)
    else if c[0] == '~' then
      if u.allKeys then Err(EEXIST)
      else if HasSpaces(op[1..]) then Err(EINVAL)
      else Ok(u.(patterns := AddOnce(u.patterns, op[1..]), allKeys := false))
    else if c[0] == '+' || c[0] == '-' then
      if |c| > 1 && c[1] == '@' then
        var category := Category(LowerAll(c[2..]), 0);
        if category.None? then Err(ENOENT) else Ok(SetCategory(t, u, category.value, c[0] == '+'))
      else if c[0] == '+' then Allow(t, u, c[1..])
      else Deny(t, u, c[1..])
    else if LowerAll(c) == "reset" then Ok(Reset(u))
    else Err(EINVAL)
  }

  function SetAll(t: Table, hash: Hash, u: User, ops: seq<string>): Outcome
    decreases |ops|
  {
    if ops == [] then Ok(u)
    else
      var r := SetUser(t, hash, u, ops[0]);
      if r.Err? then r else SetAll(t, hash, r.user, ops[1..])
  }

  // Rules that are refused are skipped.
  function Configure(t: Table, hash: Hash, u: User, ops: seq<string>): User
    decreases |ops|
  {
    if ops == [] then u
    else
      var r := SetUser(t, hash, u, ops[0]);
      Configure(t, hash, if r.Ok? then r.user else u, ops[1..])
  }

  // ------------------------------------------------------- what every user satisfies

  // Subcommands that can be told apart, and read back from a rule.
  ghost predicate Distinguished(list: seq<string>) {
    && list != []
    && (forall i | 0 <= i < |list| :: list[i] != "" && '\0' !in list[i])
    && (forall i, j | 0 <= i < j < |list| :: LowerAll(list[i]) != LowerAll(list[j]))
  }

  ghost predicate BitsOk(t: Table, bits: set<nat>, allCommands: bool, subs: map<nat, seq<string>>) {
    && bits <= AllBits()
    && (forall i: nat | i < COMMAND_BITS && i !in Ids(t) :: i in bits <==> FUTURE_BIT in bits)
    && (allCommands ==> bits == AllBits())
    && subs.Keys <= Ids(t)
    && (forall id | id in subs :: id !in bits && Distinguished(subs[id]))
  }

  ghost predicate BitsInv(t: Table, u: User) { BitsOk(t, u.bits, u.allCommands, u.subs) }

  ghost predicate PasswordsOk(passwords: seq<string>, noPass: bool) {
    NoDup(passwords) && (forall p | p in passwords :: IsHash(p)) && (noPass ==> passwords == [])
  }

  ghost predicate PatternsOk(patterns: seq<string>, allKeys: bool) {
    && NoDup(patterns) && (forall p | p in patterns :: !HasSpaces(p) && p != "*")
    && (allKeys ==> patterns == [])
  }

  ghost predicate UserInv(t: Table, u: User) {
    && u.enabled == !u.disabled
    && BitsInv(t, u)
    && PasswordsOk(u.passwords, u.noPass)
    && PatternsOk(u.patterns, u.allKeys)
  }

  ghost predicate GoodHash(hash: Hash) { forall s :: IsHash(hash(s)) }

  lemma SetBitKeepsInv(t: Table, u: User, id: nat, on: bool)
    requires BitsInv(t, u) && id in Ids(t) && id < FUTURE_BIT
    ensures BitsInv(t, SetBit(u, id, on).(subs := u.subs - {id}))
  {
    assert AllBits() - {id} != AllBits() by { assert id in AllBits(); }
    var v := SetBit(u, id, on);
    if v.allCommands { assert u.bits + {id} == AllBits(); }
  }

  lemma MembersAreCommands(t: Table, category: nat)
    requires ValidTable(t)
    ensures Members(t, category) <= Ids(t) && forall id | id in Ids(t) :: id < FUTURE_BIT
  {
  }

  lemma SetCategoryKeepsInv(t: Table, u: User, category: nat, on: bool)
    requires ValidTable(t) && BitsInv(t, u)
    ensures BitsInv(t, SetCategory(t, u, category, on))
  {
    hide Members;
    hide ValidTable;
    MembersAreCommands(t, category);
    var ids := Members(t, category);
    assert ids <= AllBits();
    if u.allCommands && on { assert AllBits() + ids == AllBits(); }
    if u.allCommands && ids == {} { assert AllBits() - ids == AllBits(); }
  }

  lemma AddSubKeepsInv(t: Table, u: User, id: nat, sub: string)
    requires BitsInv(t, u) && id in Ids(t) && id < FUTURE_BIT && id !in u.bits && sub != "" && '\0' !in sub
    ensures BitsInv(t, SetBit(AddSub(u, id, sub), id, false))
  {
    var v := SetBit(AddSub(u, id, sub), id, false);
    assert v.bits == u.bits;
    assert Distinguished(v.subs[id]);
  }

  lemma AllowKeepsInv(t: Table, u: User, name: string)
    requires ValidTable(t) && BitsInv(t, u) && '\0' !in name
    ensures
      var r := Allow(t, u, name);
      r.Ok? ==> BitsInv(t, r.user) && r.user == u.(bits := r.user.bits, subs := r.user.subs, allCommands := r.user.allCommands)
  {
    hide BitsOk, SetBit;
    var bar := Bar(name);
    var cmd := Lookup(t, LowerAll(if bar.None? then name else name[..bar.value]));
    if cmd.Some? {
      var id := cmd.value.id;
      assert id in Ids(t) && id < FUTURE_BIT;
      if bar.None? {
        SetBitKeepsInv(t, u, id, true);
        SetBitFrame(u, id, true);
      } else {
        var sub := name[bar.value + 1..];
        if sub != "" && id !in u.bits {
          AddSubKeepsInv(t, u, id, sub);
          SetBitFrame(AddSub(u, id, sub), id, false);
        }
      }
    }
  }

  lemma SetBitFrame(u: User, id: nat, on: bool)
    ensures
      var v := SetBit(u, id, on);
      v == u.(bits := v.bits, allCommands := v.allCommands)
  {
  }

  lemma DenyKeepsInv(t: Table, u: User, name: string)
    requires ValidTable(t) && BitsInv(t, u)
    ensures
      var r := Deny(t, u, name);
      r.Ok? ==> BitsInv(t, r.user) && r.user == u.(bits := r.user.bits, subs := r.user.subs, allCommands := r.user.allCommands)
  {
    hide BitsOk;
    var cmd := Lookup(t, LowerAll(name));
    if cmd.Some? {
      assert cmd.value.id in Ids(t) && cmd.value.id < FUTURE_BIT;
      SetBitKeepsInv(t, u, cmd.value.id, false);
    }
  }

  lemma AddOnceKeeps(list: seq<string>, s: string)
    requires NoDup(list)
    ensures NoDup(AddOnce(list, s))
    ensures forall x | x in AddOnce(list, s) :: x in list || x == s
  {
  }

  lemma {:induction false} RemoveFirstKeeps(list: seq<string>, s: string)
    requires NoDup(list)
    ensures forall x :: x in RemoveFirst(list, s) <==> x in list && x != s
    ensures NoDup(RemoveFirst(list, s))
  {
    if list != [] {
      var rest := list[1..];
      assert list == [list[0]] + rest;
      if list[0] == s {
        assert s !in rest;
      } else {
        RemoveFirstKeeps(rest, s);
        var r := RemoveFirst(rest, s);
        assert list[0] !in rest;
        assert list[0] !in r;
        assert RemoveFirst(list, s) == [list[0]] + r;
      }
    }
  }

  lemma {:induction false} CStringFacts(op: string)
    ensures CString(op) <= op && '\0' !in CString(op)
    ensures CString(op) == "" <==> op == "" || op[0] == '\0'
  {
    if op != "" && op[0] != '\0' { CStringFacts(op[1..]); }
  }

  // A pattern rule is not "~*" under another spelling.
  lemma PatternIsNotStar(op: string)
    requires CString(op) != "" && op[0] == '~' && !HasSpaces(op[1..]) && LowerAll(CString(op)) != "~*"
    ensures op[1..] != "*"
  {
    assert LowerAll("~*") == "~*";
    if op[1..] == "*" { CStringPlain(op); }
  }

  lemma SetOtherKeepsInv(t: Table, hash: Hash, u: User, op: string)
    requires ValidTable(t) && GoodHash(hash) && UserInv(t, u)
    requires CString(op) != "" && LowerAll(CString(op)) != "~*"
    ensures
      op != "" && var r := SetOther(t, hash, u, op, CString(op));
      r.Ok? ==> UserInv(t, r.user)
  {
    hide BitsOk, PatternsOk, PasswordsOk, ValidTable, IsHash, HasSpaces, Allow, Deny, SetCategory;
    CStringFacts(op);
    var c := CString(op);
    if c[0] == '>' || c[0] == '#' || c[0] == '<' || c[0] == '!' {
      PasswordKeepsInv(u.passwords, u.noPass, op[1..]);
      PasswordKeepsInv(u.passwords, u.noPass, hash(op[1..]));
    }
    else if c[0] == '~' {
      if !u.allKeys && !HasSpaces(op[1..]) {
        PatternIsNotStar(op);
        PatternKeepsInv(u.patterns, op[1..]);
      }
    }
    else if c[0] == '+' || c[0] == '-' {
      if |c| > 1 && c[1] == '@' {
        var category := Category(LowerAll(c[2..]), 0);
        if category.Some? {
          SetCategoryKeepsInv(t, u, category.value, c[0] == '+');
          SetCategoryFrame(t, u, category.value, c[0] == '+');
        }
      }
      else if c[0] == '+' { AllowKeepsInv(t, u, c[1..]); FrameKeepsRest(t, u, Allow(t, u, c[1..])); }
      else { DenyKeepsInv(t, u, c[1..]); FrameKeepsRest(t, u, Deny(t, u, c[1..])); }
    }
    else if LowerAll(c) == "reset" { NothingOk(t); }
  }

  lemma PatternKeepsInv(patterns: seq<string>, p: string)
    requires PatternsOk(patterns, false) && !HasSpaces(p) && p != "*"
    ensures PatternsOk(AddOnce(patterns, p), false)
  {
    hide NoDup, HasSpaces;
    AddOnceKeeps(patterns, p);
  }

  lemma PasswordKeepsInv(passwords: seq<string>, noPass: bool, s: string)
    requires PasswordsOk(passwords, noPass)
    ensures IsHash(s) ==> PasswordsOk(AddOnce(passwords, s), false)
    ensures s in passwords ==> PasswordsOk(RemoveFirst(passwords, s), noPass)
  {
    hide IsHash, NoDup;
    AddOnceKeeps(passwords, s);
    RemoveFirstKeeps(passwords, s);
  }

  lemma SetCategoryFrame(t: Table, u: User, category: nat, on: bool)
    ensures
      var v := SetCategory(t, u, category, on);
      v == u.(bits := v.bits, allCommands := v.allCommands, subs := v.subs)
  {
  }

  lemma FrameKeepsRest(t: Table, u: User, r: Outcome)
    requires UserInv(t, u)
    requires r.Ok? ==> BitsInv(t, r.user)
    requires r.Ok? ==> r.user == u.(bits := r.user.bits, subs := r.user.subs, allCommands := r.user.allCommands)
    ensures r.Ok? ==> UserInv(t, r.user)
  {
    hide BitsOk;
  }

  lemma NothingOk(t: Table)
    ensures BitsOk(t, {}, false, map[])
    ensures PasswordsOk([], false) && PasswordsOk([], true) && PatternsOk([], false) && PatternsOk([], true)
  {
  }

  lemma EverythingOk(t: Table)
    ensures BitsOk(t, AllBits(), true, map[])
  {
    assert IsBit(FUTURE_BIT);
  }

  /** Every rule keeps what the description relies on: bits of no command agree with the
      bit for future commands, and subcommands are listed only for commands denied. */
  lemma SetUserKeepsInv(t: Table, hash: Hash, u: User, op: string)
    requires ValidTable(t) && GoodHash(hash) && UserInv(t, u)
    ensures SetUser(t, hash, u, op).Ok? ==> UserInv(t, SetUser(t, hash, u, op).user)
  {
    hide SetOther, ValidTable, UserInv, WordOf, LowerAll, CString;
    CStringFacts(op);
    var word := WordOf(LowerAll(CString(op)));
    if word.Some? {
      SetWordKeepsInv(t, u, word.value);
    } else if CString(op) != "" {
      StarIsWord();
      SetOtherKeepsInv(t, hash, u, op);
    }
  }

  lemma StarIsWord()
    ensures WordOf("~*").Some?
  {
  }

  lemma SetWordKeepsInv(t: Table, u: User, word: Word)
    requires UserInv(t, u)
    ensures UserInv(t, SetWord(u, word))
  {
    hide BitsOk, PatternsOk, PasswordsOk, AllBits;
    NothingOk(t);
    EverythingOk(t);
  }

  lemma {:induction false} ConfigureKeepsInv(t: Table, hash: Hash, u: User, ops: seq<string>)
    requires ValidTable(t) && GoodHash(hash) && UserInv(t, u)
    ensures UserInv(t, Configure(t, hash, u, ops))
    decreases |ops|
  {
    hide SetUser, ValidTable, UserInv, GoodHash;
    if ops != [] {
      SetUserKeepsInv(t, hash, u, ops[0]);
      var r := SetUser(t, hash, u, ops[0]);
      ConfigureKeepsInv(t, hash, if r.Ok? then r.user else u, ops[1..]);
    }
  }
}
