/** Users as the server keeps and changes them in place. Every method computes the
    function of AclModel, AclDescribe or AclFile named in its contract. */
module AclProcess {
  import opened Wrappers
  import opened Strings
  import opened AclModel
  import opened AclDescribe
  import opened AclFile
  import Bits

  // The bitmap: bit id % 64 of word id / 64.
  const WORDS: nat := 16

  predicate BitSet(words: seq<nat>, id: nat)
    requires |words| == WORDS && id < COMMAND_BITS
  {
    Bits.Bit(words[id / 64], id % 64) == 1
  }

  ghost predicate WordsOk(words: seq<nat>) {
    |words| == WORDS && forall i | 0 <= i < WORDS :: words[i] < Bits.Pow2(64)
  }

  ghost function BitsOf(words: seq<nat>): set<nat>
    requires |words| == WORDS
  {
    set i: nat | i < COMMAND_BITS && BitSet(words, i)
  }

  // words[id / 64] |= 1 << id % 64, or &= ~.
  function PutWord(words: seq<nat>, id: nat, value: bool): int
    requires |words| == WORDS && id < COMMAND_BITS
  {
    Bits.PutBit(words[id / 64], id % 64, if value then 1 else 0)
  }

  lemma PutWordFacts(words: seq<nat>, id: nat, value: bool)
    requires WordsOk(words) && id < COMMAND_BITS
    ensures
      var w := PutWord(words, id, value);
      w >= 0 && WordsOk(words[id / 64 := w])
      && BitsOf(words[id / 64 := w]) == if value then BitsOf(words) + {id} else BitsOf(words) - {id}
  {
    hide Bits.Bit, Bits.Pow2, Bits.PutBit;
    var v := if value then 1 else 0;
    var w := PutWord(words, id, value);
    Bits.PutBitFacts(words[id / 64], id % 64, v);
    forall j: nat | j >= 64
      ensures Bits.Bit(w, j) == 0
    {
      Bits.NoHighBits(words[id / 64], 64, j);
    }
    Bits.HighBits(w, 64);
    var after := words[id / 64 := w];
    forall i: nat | i < COMMAND_BITS
      ensures BitSet(after, i) <==> if i == id then value else BitSet(words, i)
    {
      if i / 64 == id / 64 { assert i == id <==> i % 64 == id % 64; }
    }
  }

  lemma FilledWords(words: seq<nat>, value: bool)
    requires |words| == WORDS && forall i | 0 <= i < WORDS :: words[i] == if value then Bits.Pow2(64) - 1 else 0
    ensures WordsOk(words) && BitsOf(words) == if value then AllBits() else {}
  {
    hide Bits.Bit, Bits.Pow2;
    forall i: nat | i < COMMAND_BITS
      ensures BitSet(words, i) <==> value
      ensures IsBit(i)
    {
      if value { Bits.AllOnes(64, i % 64); } else { Bits.ZeroBit(i % 64); }
    }
  }

  /** Bitmaps with the same bits are the same words, which is what memcmp compares. */
  lemma SameWords(a: seq<nat>, b: seq<nat>)
    requires WordsOk(a) && WordsOk(b) && BitsOf(a) == BitsOf(b)
    ensures a == b
  {
    hide Bits.Bit, Bits.Pow2;
    forall w | 0 <= w < WORDS
      ensures a[w] == b[w]
    {
      forall k: nat | k < 64
        ensures Bits.Bit(a[w], k) == Bits.Bit(b[w], k)
      {
        var i := 64 * w + k;
        assert i / 64 == w && i % 64 == k && i < COMMAND_BITS;
        assert i in BitsOf(a) <==> i in BitsOf(b);
        assert BitSet(a, i) <==> BitSet(b, i);
      }
      Bits.SameBits(a[w], b[w], 64);
    }
  }

  class AclUser {
    var enabled: bool
    var disabled: bool
    var allKeys: bool
    var allCommands: bool
    var noPass: bool
    const allowed: array<nat>
    var passwords: seq<string>
    var patterns: seq<string>
    var subs: map<nat, seq<string>>

    ghost predicate Valid()
      reads this, allowed
    {
      WordsOk(allowed[..])
    }

    ghost function Abs(): User
      reads this, allowed
      requires Valid()
    {
      User(enabled, disabled, allKeys, allCommands, noPass, BitsOf(allowed[..]), passwords, patterns, subs)
    }

    constructor ()
      ensures Valid() && Abs() == FRESH && fresh(allowed)
    {
      enabled, disabled, allKeys, allCommands, noPass := false, true, false, false, false;
      passwords, patterns, subs := [], [], map[];
      allowed := new nat[WORDS](_ => 0);
      new;
      FilledWords(allowed[..], false);
    }

    method GetUserCommandBit(id: nat) returns (bit: bool)
      requires Valid()
      ensures bit <==> id in Abs().bits
    {
      if id >= COMMAND_BITS { return false; }
      assert BitSet(allowed[..], id) <==> Bits.Bit(allowed[id / 64], id % 64) == 1;
      return Bits.Bit(allowed[id / 64], id % 64) == 1;
    }

    method SetUserCommandBit(id: nat, value: bool)
      requires Valid()
      modifies this`allCommands, allowed
      ensures Valid() && Abs() == SetBit(old(Abs()), id, value)
    {
      if !value { allCommands := false; }
      if id >= COMMAND_BITS { return; }
      hide WordsOk, BitsOf;
      ghost var words := allowed[..];
      PutWordFacts(words, id, value);
      var word, bit := id / 64, id % 64;
      var w := Bits.PutBit(allowed[word], bit, if value then 1 else 0);
      assert w == PutWord(words, id, value) >= 0;
      allowed[word] := w;
      assert allowed[..] == words[word := w];
    }

    method FillBits(value: bool)
      requires Valid()
      modifies allowed
      ensures Valid() && Abs() == old(Abs()).(bits := if value then AllBits() else {})
    {
      hide Bits.Pow2;
      var full := if value then Bits.Pow2(64) - 1 else 0;
      forall i | 0 <= i < allowed.Length { allowed[i] := full; }
      FilledWords(allowed[..], value);
    }

    method ResetSubcommandsForCommand(id: nat)
      requires Valid()
      modifies this`subs
      ensures Valid() && Abs() == old(Abs()).(subs := old(subs) - {id})
    {
      subs := subs - {id};
    }

    method AddAllowedSubcommand(id: nat, sub: string)
      requires Valid()
      modifies this`subs
      ensures Valid() && Abs() == AddSub(old(Abs()), id, sub)
      ensures subs == old(subs)[id := AddTo(if id in old(subs) then old(subs)[id] else [], sub)]
    {
      hide LowerAll;
      var items := 0;
      var list := if id in subs then subs[id] else [];
      while items < |list|
        invariant 0 <= items <= |list|
        invariant forall i | 0 <= i < items :: LowerAll(list[i]) != LowerAll(sub)
      {
        if LowerAll(list[items]) == LowerAll(sub) {
          assert AddTo(list, sub) == list;
          subs := subs[id := list];
          return;
        }
        items := items + 1;
      }
      subs := subs[id := list + [sub]];
    }

    method SetUserCommandBitsForCategory(t: Table, low: string, value: bool) returns (ok: bool)
      requires Valid() && ValidTable(t)
      modifies this`allCommands, this`subs, allowed
      ensures Valid() && (ok <==> Category(low, 0).Some?)
      ensures Abs() == if ok then SetCategory(t, old(Abs()), Category(low, 0).value, value) else old(Abs())
    {
      hide Category, ValidTable;
      var category := Category(low, 0);
      if category.None? { return false; }
      ghost var was := Abs();
      assert was.subs - Members([], category.value) == was.subs;
      for k := 0 to |t|
        invariant Valid() && Abs() == SetCategory(t[..k], was, category.value, value)
      {
        MembersMore(t, category.value, k);
        BitFits(t, k);
        if !t[k].fromModule && category.value in t[k].categories {
          SetUserCommandBit(t[k].id, value);
          ResetSubcommandsForCommand(t[k].id);
          OneMore(was, Members(t[..k], category.value), t[k].id, value);
        }
      }
      assert t[..|t|] == t;
      return true;
    }

    /** Commands of a category the user may and may not run. */
    method CountCategoryBits(t: Table, category: nat) returns (on: nat, off: nat)
      requires Valid()
      ensures on == Count(t, Abs(), category, true, |t|) && off == Count(t, Abs(), category, false, |t|)
    {
      on, off := 0, 0;
      for k := 0 to |t|
        invariant on == Count(t, Abs(), category, true, k) && off == Count(t, Abs(), category, false, k)
      {
        if category in t[k].categories {
          var bit := GetUserCommandBit(t[k].id);
          if bit { on := on + 1; } else { off := off + 1; }
        }
      }
    }

    // ------------------------------------------------------------------- one rule

    method SetEveryCommand(on: bool)
      requires Valid()
      modifies this`allCommands, this`subs, allowed
      ensures Valid() && Abs() == SetWord(old(Abs()), if on then AllCommands else NoCommands)
    {
      hide WordsOk, BitsOf, AllBits;
      FillBits(on);
      allCommands, subs := on, map[];
    }

    method ApplyWord(word: Word)
      requires Valid()
      modifies this, allowed
      ensures Valid() && Abs() == SetWord(old(Abs()), word)
    {
      hide WordsOk, BitsOf, AllBits;
      match word
      case On => enabled, disabled := true, false;
      case Off => disabled, enabled := true, false;
      case AllKeys => allKeys, patterns := true, [];
      case ResetKeys => allKeys, patterns := false, [];
      case AllCommands => SetEveryCommand(true);
      case NoCommands => SetEveryCommand(false);
      case NoPass => noPass, passwords := true, [];
      case ResetPass => noPass, passwords := false, [];
    }

    method ApplyAllow(t: Table, name: string) returns (r: Option<Errno>)
      requires Valid()
      modifies this`allCommands, this`subs, allowed
      ensures Valid() && Became(old(Abs()), Allow(t, old(Abs()), name), r, Abs())
    {
      hide AddSub;
      var bar := Bar(name);
      if bar.None? {
        var cmd := Lookup(t, LowerAll(name));
        if cmd.None? { return Some(ENOENT); }
        SetUserCommandBit(cmd.value.id, true);
        ResetSubcommandsForCommand(cmd.value.id);
      } else {
        var cmd, sub := Lookup(t, LowerAll(name[..bar.value])), name[bar.value + 1..];
        if cmd.None? { return Some(ENOENT); }
        if sub == "" { return Some(EINVAL); }
        var bit := GetUserCommandBit(cmd.value.id);
        if bit { return Some(EBUSY); }
        AddAllowedSubcommand(cmd.value.id, sub);
        SetUserCommandBit(cmd.value.id, false);
      }
      return None;
    }

    method ApplyDeny(t: Table, name: string) returns (r: Option<Errno>)
      requires Valid()
      modifies this`allCommands, this`subs, allowed
      ensures Valid() && Became(old(Abs()), Deny(t, old(Abs()), name), r, Abs())
    {
      var cmd := Lookup(t, LowerAll(name));
      if cmd.None? { return Some(ENOENT); }
      SetUserCommandBit(cmd.value.id, false);
      ResetSubcommandsForCommand(cmd.value.id);
      return None;
    }

    method ApplyPassword(hash: Hash, op: string) returns (r: Option<Errno>)
      requires Valid() && op != "" && op[0] in {'>', '#', '<', '!'}
      modifies this`passwords, this`noPass
      ensures Valid()
      ensures Became(old(Abs()), ChangePassword(hash, old(Abs()), op), r, Abs())
    {
      hide RemoveFirst;
      if op[0] == '>' || op[0] == '#' {
        var pass := op[1..];
        if op[0] == '>' { pass := hash(pass); }
        else if !IsHash(pass) { return Some(EBADMSG); }
        if pass !in passwords { passwords := passwords + [pass]; }
        noPass := false;
      } else {
        var pass := op[1..];
        if op[0] == '<' { pass := hash(pass); }
        else if |op| != HASH_LEN + 1 { return Some(EBADMSG); }
        if pass !in passwords { return Some(ENODEV); }
        passwords := RemoveFirst(passwords, pass);
      }
      return None;
    }

    /** One rule; None if it was understood. Nothing changes on an error. */
    method SetUser(t: Table, hash: Hash, op: string) returns (r: Option<Errno>)
      requires Valid() && ValidTable(t)
      modifies this, allowed
      ensures Valid() && Became(old(Abs()), AclModel.SetUser(t, hash, old(Abs()), op), r, Abs())
    {
      hide WordOf, LowerAll, Category, SetCategory, Allow, Deny, IsHash, RemovePassword, AddPassword, ValidTable;
      CStringFacts(op);
      var c := CString(op);
      var word := WordOf(LowerAll(c));
      if word.Some? {
        ApplyWord(word.value);
        return None;
      }
      if c == "" { return Some(EINVAL); }
      if op[0] in {'>', '#', '<', '!'} {
        r := ApplyPassword(hash, op);
      } else if op[0] == '~' {
        if allKeys { return Some(EEXIST); }
        if HasSpaces(op[1..]) { return Some(EINVAL); }
        if op[1..] !in patterns { patterns := patterns + [op[1..]]; }
        r := None;
      } else if op[0] == '+' || op[0] == '-' {
        if |c| > 1 && c[1] == '@' {
          var ok := SetUserCommandBitsForCategory(t, LowerAll(c[2..]), op[0] == '+');
          return if ok then None else Some(ENOENT);
        }
        if op[0] == '+' { r := ApplyAllow(t, c[1..]); } else { r := ApplyDeny(t, c[1..]); }
      } else if LowerAll(c) == "reset" {
        ApplyWord(ResetPass);
        ApplyWord(ResetKeys);
        ApplyWord(Off);
        ApplyWord(NoCommands);
        r := None;
      } else {
        r := Some(EINVAL);
      }
    }

    // ---------------------------------------------------------------- describing

    // The rule for one category, if it helps; the fake user follows it.
    method DescribeCategory(fake: AclUser, t: Table, j: nat) returns (rules: seq<string>)
      requires Valid() && fake.Valid() && fake != this && fake.allowed != allowed && ValidTable(t) && j < CATEGORIES
      modifies fake, fake.allowed
      ensures Valid() && Abs() == old(Abs()) && fake.Valid()
      ensures
        var c, on := CategoryAt(j), Additive(Abs());
        if Wanted(t, Abs(), c) then
          rules == [CategoryRule(Abs(), j)] && fake.Abs() == SetCategory(t, old(fake.Abs()), c, on)
        else rules == [] && fake.Abs() == old(fake.Abs())
    {
      hide CategoryName, SetCategory, ValidTable;
      var future := GetUserCommandBit(FUTURE_BIT);
      var on, off := CountCategoryBits(t, CategoryAt(j));
      rules := [];
      if if future then off > on else on > off {
        var ok := fake.SetUserCommandBitsForCategory(t, LowerAll(CategoryName(j)), !future);
        rules := [Sign(!future) + "@" + CategoryName(j)];
      }
    }

    // The rules for one command; the fake user's bit follows.
    method DescribeCommand(fake: AclUser, cmd: Command) returns (rules: seq<string>)
      requires Valid() && fake.Valid() && fake != this && fake.allowed != allowed && cmd.id < COMMAND_BITS
      modifies fake, fake.allowed
      ensures Valid() && Abs() == old(Abs()) && fake.Valid()
      ensures rules == CommandRules(Abs(), old(fake.Abs().bits), cmd)
      ensures fake.Abs().bits ==
        if cmd.id in Abs().bits then old(fake.Abs().bits) + {cmd.id} else old(fake.Abs().bits) - {cmd.id}
    {
      hide WordsOk, BitsOf, SubRules, AllBits;
      NoSubRules(cmd.name);
      var userBit := GetUserCommandBit(cmd.id);
      var fakeBit := fake.GetUserCommandBit(cmd.id);
      rules := [];
      if userBit != fakeBit {
        rules := [Sign(userBit) + cmd.name];
        fake.SetUserCommandBit(cmd.id, userBit);
      }
      if !userBit && cmd.id in subs {
        var more := DescribeSubs(cmd.name, subs[cmd.id]);
        rules := rules + more;
      }
    }

    method DescribeSubs(name: string, list: seq<string>) returns (rules: seq<string>)
      ensures rules == SubRules(name, list)
    {
      rules := [];
      for j := 0 to |list|
        invariant rules == SubRules(name, list)[..j]
      {
        rules := rules + ["+" + name + "|" + list[j]];
      }
    }

    method Emit(mark: string, list: seq<string>) returns (rules: seq<string>)
      ensures rules == Prefixed(mark, list)
    {
      rules := [];
      for i := 0 to |list|
        invariant rules == Prefixed(mark, list)[..i]
      {
        rules := rules + [mark + list[i]];
      }
    }

    // The whole bitmap of the fake user and the rules, after the categories.
    // The first rule, for all commands there are and will be.
    method DescribeAll(fake: AclUser, t: Table) returns (rules: seq<string>)
      requires Valid() && fake.Valid() && fake != this && fake.allowed != allowed
      modifies fake, fake.allowed
      ensures Valid() && Abs() == old(Abs()) && fake.Valid()
      ensures AclDescribe.Described(fake.Abs().bits, rules) == DescribeCategories(t, Abs(), 0)
    {
      hide WordsOk, BitsOf, AllBits;
      var future := GetUserCommandBit(FUTURE_BIT);
      if future {
        rules := ["+@all"];
        fake.ApplyWord(AllCommands);
      } else {
        rules := ["-@all"];
        fake.ApplyWord(NoCommands);
      }
    }

    method DescribeAllCategories(fake: AclUser, t: Table) returns (rules: seq<string>)
      requires Valid() && fake.Valid() && fake != this && fake.allowed != allowed && ValidTable(t)
      modifies fake, fake.allowed
      ensures Valid() && Abs() == old(Abs()) && fake.Valid()
      ensures AclDescribe.Described(fake.Abs().bits, rules) == DescribeCategories(t, Abs(), CATEGORIES)
    {
      hide CategoryName, ValidTable, Wanted, CategoryRule, SetCategory, DescribeCategories, WordsOk, BitsOf;
      rules := DescribeAll(fake, t);
      for j := 0 to CATEGORIES
        invariant Valid() && Abs() == old(Abs()) && fake.Valid()
        invariant AclDescribe.Described(fake.Abs().bits, rules) == DescribeCategories(t, Abs(), j)
      {
        ghost var was := fake.Abs();
        var more := DescribeCategory(fake, t, j);
        CategoryDescribed(t, Abs(), j, rules, more, was, fake.Abs());
        rules := rules + more;
      }
    }

    method DescribeAllCommands(fake: AclUser, t: Table, before: seq<string>) returns (rules: seq<string>)
      requires Valid() && fake.Valid() && fake != this && fake.allowed != allowed && ValidTable(t)
      requires AclDescribe.Described(fake.Abs().bits, before) == DescribeCategories(t, Abs(), CATEGORIES)
      modifies fake, fake.allowed
      ensures Valid() && Abs() == old(Abs()) && fake.Valid()
      ensures AclDescribe.Described(fake.Abs().bits, rules) == DescribeCommands(t, Abs(), |t|)
    {
      hide DescribeCategories, ValidTable, CommandRules;
      rules := before;
      for k := 0 to |t|
        invariant Valid() && Abs() == old(Abs()) && fake.Valid()
        invariant AclDescribe.Described(fake.Abs().bits, rules) == DescribeCommands(t, Abs(), k)
      {
        BitFits(t, k);
        var more := DescribeCommand(fake, t[k]);
        rules := rules + more;
      }
    }

    /** The rules about commands. The bits of the fake user they are applied to end up
        the same as those of this user: this is the assertion at the end. */
    method DescribeUserCommandRules(t: Table, ghost hash: Hash) returns (rules: seq<string>)
      requires Valid() && ValidTable(t) && UserInv(t, Abs())
      ensures rules == CommandDescription(t, Abs()).rules
    {
      hide UserInv, ValidTable, DescribeCategories, DescribeCommands;
      var fake := new AclUser();
      rules := DescribeAllCategories(fake, t);
      rules := DescribeAllCommands(fake, t, rules);
      FreshInv(t);
      CommandsDescribed(t, hash, Abs(), FRESH);
      SameWords(fake.allowed[..], allowed[..]);
      assert fake.allowed[..] == allowed[..];
    }

    /** Everything there is to say about this user. */
    method Describe(t: Table, ghost hash: Hash) returns (rules: seq<string>)
      requires Valid() && ValidTable(t) && UserInv(t, Abs())
      ensures rules == AclDescribe.DescribeUser(t, Abs())
    {
      hide CommandDescription, UserInv, ValidTable, Prefixed;
      rules := [];
      if enabled { rules := rules + ["on"]; }
      if disabled { rules := rules + ["off"]; }
      if noPass { rules := rules + ["nopass"]; }
      var hashes := Emit("#", passwords);
      var keys := Emit("~", patterns);
      rules := rules + hashes;
      rules := rules + (if allKeys then ["~*"] else keys);
      var commands := DescribeUserCommandRules(t, hash);
      rules := rules + commands;
    }

    // ------------------------------------------------------------------- copying

    method CopySubs(id: nat, list: seq<string>)
      requires Valid() && Distinguished(list) && id !in subs
      modifies this`subs
      ensures Valid() && Abs() == old(Abs()).(subs := old(subs)[id := list])
    {
      assert list != [];
      hide Distinguished, AddTo;
      ghost var flat := Abs();
      for i := 0 to |list|
        invariant subs == if i == 0 then flat.subs else flat.subs[id := list[..i]]
      {
        NewSub(Abs(), id, list, i);
        AddAllowedSubcommand(id, list[i]);
        assert list[..i + 1] == list[..i] + [list[i]];
      }
      assert list[..|list|] == list;
    }

    method CopyFlat(src: AclUser)
      requires Valid() && src.Valid() && src != this && src.allowed != allowed
      modifies this, allowed
      ensures Valid() && Abs() == src.Abs().(subs := map[]) && src.Abs() == old(src.Abs())
    {
      hide WordsOk, BitsOf;
      CopyBits(src);
      passwords, patterns := src.passwords, src.patterns;
      enabled, disabled, allKeys, allCommands, noPass :=
        src.enabled, src.disabled, src.allKeys, src.allCommands, src.noPass;
      subs := map[];
    }

    method CopyBits(src: AclUser)
      requires Valid() && src.Valid() && src != this && src.allowed != allowed
      modifies allowed
      ensures allowed[..] == src.allowed[..]
    {
      forall i | 0 <= i < allowed.Length { allowed[i] := src.allowed[i]; }
    }

    // Copying adds the subcommands one by one, which changes nothing for lists without
    // repetitions.
    method CopyUser(t: Table, src: AclUser)
      requires Valid() && src.Valid() && src != this && src.allowed != allowed
      requires ValidTable(t) && UserInv(t, src.Abs())
      modifies this, allowed
      ensures Valid() && Abs() == src.Abs() == old(src.Abs())
    {
      hide UserInv, Distinguished;
      CopyFlat(src);
      SubsFacts(t, src.Abs());
      CopyAllSubs(src);
    }

    method CopyAllSubs(src: AclUser)
      requires Valid() && src != this && subs == map[]
      requires forall id | id in src.subs :: Distinguished(src.subs[id]) && id < COMMAND_BITS
      modifies this`subs
      ensures Valid() && subs == src.subs && Abs() == old(Abs()).(subs := subs)
    {
      hide Distinguished;
      for j := 0 to COMMAND_BITS
        invariant Valid() && Abs() == old(Abs()).(subs := subs)
        invariant forall id :: id in subs <==> id in src.subs && id < j
        invariant forall id | id in subs :: subs[id] == src.subs[id]
      {
        if j in src.subs { CopySubs(j, src.subs[j]); }
      }
    }

    // ------------------------------------------------------------------- checking

    method CheckCommandPerm(r: Request, matches: Match) returns (d: Decision)
      requires Valid() && forall i | 0 <= i < |r.keys| :: r.keys[i] < |r.argv|
      ensures d == Check(Some(Abs()), r, matches) && Decides(Abs(), r, matches, d)
    {
      hide LowerAll, CString, Decides;
      CheckIs(Abs(), r, matches);
      if !allCommands && !r.isAuth {
        var bit := GetUserCommandBit(r.id);
        if !bit {
          if |r.argv| < 2 || r.id !in subs { return DeniedCommand; }
          var subid := 0;
          while true
            invariant 0 <= subid <= |subs[r.id]|
            invariant forall i | 0 <= i < subid :: LowerAll(CString(r.argv[1])) != LowerAll(subs[r.id][i])
            decreases |subs[r.id]| - subid
          {
            if subid == |subs[r.id]| { return DeniedCommand; }
            if LowerAll(CString(r.argv[1])) == LowerAll(subs[r.id][subid]) { break; }
            subid := subid + 1;
          }
          assert LowerAll(CString(r.argv[1])) == LowerAll(Subs(Abs(), r.id)[subid]);
        }
      }
      assert CommandAllowed(Abs(), r);
      if !allKeys {
        for j := 0 to |r.keys|
          invariant FirstDenied(Abs(), r, matches, 0) == FirstDenied(Abs(), r, matches, j)
        {
          var p := 0;
          while p < |patterns| && !matches(patterns[p], r.argv[r.keys[j]])
            invariant p <= |patterns|
            invariant forall i | 0 <= i < p :: !matches(patterns[i], r.argv[r.keys[j]])
          {
            p := p + 1;
          }
          if p == |patterns| { return DeniedKey(r.keys[j]); }
        }
      }
      return Allowed;
    }
  }

  // What a method returns and leaves behind is an outcome of the model.
  ghost predicate Became(before: User, o: Outcome, r: Option<Errno>, after: User) {
    if o.Ok? then r == None && after == o.user else r == Some(o.errno) && after == before
  }

  function ChangePassword(hash: Hash, u: User, op: string): Outcome
    requires op != ""
  {
    if op[0] == '>' then Ok(AddPassword(u, hash(op[1..])))
    else if op[0] == '#' then if IsHash(op[1..]) then Ok(AddPassword(u, op[1..])) else Err(EBADMSG)
    else if op[0] == '<' then RemovePassword(u, hash(op[1..]))
    else if |op| == HASH_LEN + 1 then RemovePassword(u, op[1..]) else Err(EBADMSG)
  }

  lemma MembersMore(t: Table, category: nat, k: nat)
    requires k < |t|
    ensures Members(t[..k + 1], category) == Members(t[..k], category)
      + (if category in t[k].categories && !t[k].fromModule then {t[k].id} else {})
  {
    assert t[..k + 1] == t[..k] + [t[k]];
    forall id | id in Members(t[..k], category)
      ensures id in Members(t[..k + 1], category)
    {
      var i :| 0 <= i < k && category in t[..k][i].categories && !t[..k][i].fromModule && t[..k][i].id == id;
      assert t[..k + 1][i] == t[..k][i];
    }
    if category in t[k].categories && !t[k].fromModule {
      assert t[..k + 1][k] == t[k];
    }
  }

  lemma OneMore(u: User, ids: set<nat>, id: nat, on: bool)
    ensures u.bits + ids + {id} == u.bits + (ids + {id}) && u.bits - ids - {id} == u.bits - (ids + {id})
    ensures u.subs - ids - {id} == u.subs - (ids + {id})
  {
  }

  lemma BitFits(t: Table, k: nat)
    requires ValidTable(t) && k < |t|
    ensures t[k].id < COMMAND_BITS
  {
  }

  lemma FreshInv(t: Table)
    ensures UserInv(t, FRESH)
  {
    NothingOk(t);
  }

  lemma SubsFacts(t: Table, u: User)
    requires ValidTable(t) && UserInv(t, u)
    ensures forall id | id in u.subs :: Distinguished(u.subs[id])
    ensures forall id | id in u.subs :: id < COMMAND_BITS
  {
    hide Distinguished;
  }

  // One more category of the description.
  lemma CategoryDescribed(t: Table, u: User, j: nat, rules: seq<string>, more: seq<string>, was: User, now: User)
    requires j < CATEGORIES && AclDescribe.Described(was.bits, rules) == DescribeCategories(t, u, j)
    requires
      var c := CategoryAt(j);
      if Wanted(t, u, c) then more == [CategoryRule(u, j)] && now == SetCategory(t, was, c, Additive(u))
      else more == [] && now == was
    ensures AclDescribe.Described(now.bits, rules + more) == DescribeCategories(t, u, j + 1)
  {
    hide CategoryName, Wanted, CategoryRule, Members, Category;
    assert rules + [] == rules;
  }

  lemma NoSubRules(name: string)
    ensures SubRules(name, []) == []
  {
  }
}
