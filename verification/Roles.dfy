/** The roster and the commands that change it, and who can become or stay an admin. */
module Roles {
  import opened Octets
  import Hex

  datatype Role = RoleUser | RoleMod | RoleAdmin

  function Rank(r: Role): nat {
    match r case RoleUser => 0 case RoleMod => 1 case RoleAdmin => 2
  }

  /** A roster entry; `role` is the persisted runtime grant. */
  datatype Member = Member(hash: string, nickname: string, paused: bool, textOnly: bool, role: string)

  datatype Room = Room(users: map<string, Member>, banlist: set<string>)

  datatype Config = Config(admins: seq<string>, mods: seq<string>, maxMembers: nat)

  function LowerChar(c: char): char {
    if 'A' <= c <= 'Z' then c - 'A' + 'a' else c
  }

  function ToLower(s: string): (r: string)
    ensures |r| == |s| && forall i :: 0 <= i < |s| ==> r[i] == LowerChar(s[i])
  {
    seq(|s|, i requires 0 <= i < |s| => LowerChar(s[i]))
  }

  lemma LowerTwice(s: string)
    ensures ToLower(ToLower(s)) == ToLower(s)
  {
  }

  predicate IsHexPrefix(s: string) {
    forall i :: 0 <= i < |s| ==> s[i] in "0123456789abcdef"
  }

  predicate NickOk(s: string) {
    1 <= |s| <= 24 && forall i :: 0 <= i < |s| ==>
      ('A' <= s[i] <= 'Z' || 'a' <= s[i] <= 'z' || '0' <= s[i] <= '9' || s[i] in "_-")
  }

  // ---- who is asking ----

  datatype Caller = Caller(hash: string, key: Option<string>, role: Role, member: bool)

  function ParseRole(s: string): Role {
    if s == "admin" then RoleAdmin else if s == "mod" then RoleMod else RoleUser
  }

  function ConfigRole(cfg: Config, h: string): Role {
    if ToLower(h) in cfg.admins then RoleAdmin else if ToLower(h) in cfg.mods then RoleMod else RoleUser
  }

  /** The roster key of a sender: its 16 octets in hex, or none when malformed. */
  function KeyOf(h: string): Option<string> {
    if |h| != 32 then None
    else match Hex.Decode(h) case Some(b) => Some(Hex.Encode(b)) case None => None
  }

  function DeriveCaller(cfg: Config, room: Room, sender: string): Caller {
    var sh := ToLower(sender);
    var key := KeyOf(sh);
    var floor := ConfigRole(cfg, sh);
    var member := key.Some? && key.value in room.users;
    var granted := if member && sh in room.users then ParseRole(room.users[sh].role) else RoleUser;
    Caller(sh, key, if Rank(granted) > Rank(floor) then granted else floor, member)
  }

  function EffectiveRole(cfg: Config, room: Room, h: string): Role {
    DeriveCaller(cfg, room, h).role
  }

  // ---- what each command does ----

  datatype Command =
    | Join(announced: string) // the sanitised announced name, or ""
    | Leave
    | SetPaused(on: bool)
    | SetTextOnly(on: bool)
    | Nick(args: seq<string>)
    | UserMode(args: seq<string>)
    | Kick(args: seq<string>)
    | Ban(args: seq<string>)
    | Unban(args: seq<string>)
    | ReadOnly // every other command

  function Edit(room: Room, h: string, m: Member): Room {
    room.(users := room.users[h := m])
  }

  function Without(room: Room, h: string): Room {
    room.(users := room.users - {h})
  }

  ghost function Sole(s: set<string>): (r: Option<string>)
    ensures r.Some? ==> s == {r.value}
  {
    if |s| == 1 then
      var x :| x in s;
      assert s == {x} by { SoleElement(s, x); }
      Some(x)
    else None
  }

  lemma SoleElement(s: set<string>, x: string)
    requires |s| == 1 && x in s
    ensures s == {x}
  {
    assert |s - {x}| == 0;
    assert s == (s - {x}) + {x};
  }

  ghost function ByNick(users: map<string, Member>, q: string): set<string> {
    set h | h in users && ToLower(users[h].nickname) == q
  }

  ghost function ByPrefix(users: map<string, Member>, q: string): set<string> {
    set h | h in users && HasPrefix(users[h].hash, q)
  }

  /** The one member a query names: by nickname, and only if none has it by four or more hex digits. */
  ghost function Resolved(users: map<string, Member>, query: string): Option<string> {
    var q := ToLower(query);
    if q == "" then None
    else if ByNick(users, q) != {} then Sole(ByNick(users, q))
    else if IsHexPrefix(q) && |q| >= 4 then Sole(ByPrefix(users, q))
    else None
  }

  ghost function Target(room: Room, query: string): Option<Member> {
    match Resolved(room.users, query)
    case Some(h) => if h in room.users then Some(room.users[h]) else None
    case None => None
  }

  function AtLeastMod(r: Role): bool {
    r != RoleUser
  }

  function Joined(cfg: Config, room: Room, c: Caller, announced: string): Room {
    if c.member || c.key.None? || c.key.value in room.banlist then room
    else if cfg.maxMembers > 0 && |room.users| >= cfg.maxMembers then room
    else Edit(room, c.key.value, Member(c.key.value, announced, false, false, ""))
  }

  function WithNick(room: Room, h: string, nick: string): Room {
    if h in room.users then Edit(room, h, room.users[h].(nickname := nick)) else room
  }

  function WithRole(room: Room, h: string, role: string): Room {
    if h in room.users then Edit(room, h, room.users[h].(role := role)) else room
  }

  ghost function Renamed(room: Room, c: Caller, args: seq<string>): Room {
    if |args| == 1 then
      if c.member && NickOk(args[0]) then WithNick(room, c.hash, args[0]) else room
    else if |args| == 2 && AtLeastMod(c.role) && NickOk(args[1]) then
      match Target(room, args[0])
      case Some(t) => WithNick(room, ToLower(t.hash), args[1])
      case None => room
    else room
  }

  /** An admin may set anyone's grant, except clear their own when the config does not make them admin. */
  ghost function Granted(cfg: Config, room: Room, c: Caller, args: seq<string>): Room {
    if c.role != RoleAdmin || |args| != 2 then room
    else
      var requested := ToLower(args[0]);
      if requested != "admin" && requested != "mod" && requested != "user" then room
      else
        match Target(room, args[1])
        case None => room
        case Some(t) =>
          var lowers := Rank(ParseRole(requested)) < Rank(RoleAdmin);
          if t.hash == c.hash && lowers && Rank(ConfigRole(cfg, c.hash)) < Rank(RoleAdmin) then room
          else
            WithRole(room, ToLower(t.hash), if requested == "user" then "" else requested)
  }

  ghost function Kicked(room: Room, c: Caller, args: seq<string>): Room {
    if !AtLeastMod(c.role) || |args| != 1 then room
    else match Target(room, args[0]) case Some(t) => Without(room, ToLower(t.hash)) case None => room
  }

  ghost function Banned(room: Room, c: Caller, args: seq<string>): Room {
    if !AtLeastMod(c.role) || |args| != 1 then room
    else
      match Target(room, args[0])
      case Some(t) => Without(room, ToLower(t.hash)).(banlist := room.banlist + {ToLower(t.hash)})
      case None => room
  }

  /** An exact entry, else the only entry with that prefix. */
  ghost function Unbanned(room: Room, c: Caller, args: seq<string>): Room {
    if !AtLeastMod(c.role) || |args| != 1 then room
    else
      var q := ToLower(args[0]);
      if q in room.banlist then room.(banlist := room.banlist - {q})
      else
        match Sole(set h | h in room.banlist && HasPrefix(h, q))
        case Some(h) => room.(banlist := room.banlist - {ToLower(h)})
        case None => room
  }

  function Or(choice: Option<bool>, was: bool): bool {
    if choice.Some? then choice.value else was
  }

  function Flagged(room: Room, c: Caller, paused: Option<bool>, textOnly: Option<bool>): Room {
    if !c.member || c.hash !in room.users then room
    else
      var m := room.users[c.hash];
      Edit(room, c.hash, m.(paused := Or(paused, m.paused), textOnly := Or(textOnly, m.textOnly)))
  }

  ghost function Apply(cfg: Config, room: Room, sender: string, cmd: Command): Room {
    var c := DeriveCaller(cfg, room, sender);
    match cmd
    case Join(announced) => Joined(cfg, room, c, announced)
    case Leave => if c.member then Without(room, c.hash) else room
    case SetPaused(on) => Flagged(room, c, Some(on), None)
    case SetTextOnly(on) => Flagged(room, c, None, Some(on))
    case Nick(args) => Renamed(room, c, args)
    case UserMode(args) => Granted(cfg, room, c, args)
    case Kick(args) => Kicked(room, c, args)
    case Ban(args) => Banned(room, c, args)
    case Unban(args) => Unbanned(room, c, args)
    case ReadOnly => room
  }

  // ---- the roster ----

  /** Entries are filed under their own lower-case hash. */
  ghost predicate Filed(room: Room) {
    && (forall h :: h in room.users ==> room.users[h].hash == h && KeyOf(h) == Some(h) && ToLower(h) == h)
    && (forall h :: h in room.banlist ==> ToLower(h) == h)
  }

  class Roster {
    var users: map<string, Member>
    var banlist: set<string>

    ghost function View(): Room
      reads this
    {
      Room(users, banlist)
    }

    constructor (room: Room)
      ensures View() == room
    {
      users, banlist := room.users, room.banlist;
    }

    /** The sweep: every member whose last activity is past a cutoff goes, whatever its role. */
    method Prune(stale: set<string>) returns (pruned: set<string>)
      modifies this
      ensures pruned == old(users).Keys * stale && View() == Room(old(users) - stale, old(banlist))
    {
      pruned := {};
      var left := users.Keys;
      while left != {}
        invariant left <= old(users).Keys
        invariant pruned == (old(users).Keys - left) * stale && View() == Room(old(users) - pruned, old(banlist))
        decreases left
      {
        var h :| h in left;
        left := left - {h};
        if h in stale { users, pruned := users - {h}, pruned + {h}; }
      }
      assert old(users) - pruned == old(users) - stale;
    }

    method CollectByNick(q: string) returns (found: set<string>)
      ensures found == ByNick(users, q)
    {
      found := {};
      var left := users.Keys;
      while left != {}
        invariant left <= users.Keys
        invariant found == set h | h in users && h !in left && ToLower(users[h].nickname) == q
        decreases left
      {
        var h :| h in left;
        left := left - {h};
        if ToLower(users[h].nickname) == q { found := found + {h}; }
      }
    }

    method CollectByPrefix(q: string) returns (found: set<string>)
      ensures found == ByPrefix(users, q)
    {
      found := {};
      var left := users.Keys;
      while left != {}
        invariant left <= users.Keys
        invariant found == set h | h in users && h !in left && HasPrefix(users[h].hash, q)
        decreases left
      {
        var h :| h in left;
        left := left - {h};
        if HasPrefix(users[h].hash, q) { found := found + {h}; }
      }
    }

    method Resolve(query: string) returns (r: Option<Member>)
      ensures r == Target(View(), query)
    {
      var q := ToLower(query);
      if q == "" { return None; }
      var found := CollectByNick(q);
      if found == {} && IsHexPrefix(q) && |q| >= 4 {
        found := CollectByPrefix(q);
      }
      if |found| == 1 {
        var h :| h in found;
        SoleElement(found, h);
        return Some(users[h]);
      }
      return None;
    }

    method AddOrUpdate(key: string)
      modifies this
      ensures View() ==
        if key in old(users) then old(View()) else Edit(old(View()), key, Member(key, "", false, false, ""))
    {
      if key !in users { users := users[key := Member(key, "", false, false, "")]; }
    }

    method SetNickname(hash: string, nick: string)
      modifies this`users
      ensures var h := ToLower(hash);
        View() == if h in old(users) then Edit(old(View()), h, old(users)[h].(nickname := nick)) else old(View())
    {
      var h := ToLower(hash);
      if h in users { users := users[h := users[h].(nickname := nick)]; }
    }

    method SetRole(hash: string, role: string) returns (ok: bool)
      modifies this`users
      ensures var h := ToLower(hash);
        && ok == (role in ["", "mod", "admin"] && h in old(users))
        && View() == if ok then Edit(old(View()), h, old(users)[h].(role := role)) else old(View())
    {
      if role !in ["", "mod", "admin"] { return false; }
      var h := ToLower(hash);
      if h !in users { return false; }
      users := users[h := users[h].(role := role)];
      return true;
    }

    method SetFlags(hash: string, paused: bool, textOnly: bool)
      modifies this`users
      ensures var h := ToLower(hash);
        View() == if h in old(users) then Edit(old(View()), h, old(users)[h].(paused := paused, textOnly := textOnly))
          else old(View())
    {
      var h := ToLower(hash);
      if h in users { users := users[h := users[h].(paused := paused, textOnly := textOnly)]; }
    }

    method Remove(hash: string) returns (removed: bool)
      modifies this`users
      ensures removed == (ToLower(hash) in old(users)) && View() == Without(old(View()), ToLower(hash))
    {
      removed := ToLower(hash) in users;
      if removed { users := users - {ToLower(hash)}; }
    }

    method BanUser(hash: string)
      modifies this
      ensures View() == Without(old(View()), ToLower(hash)).(banlist := old(banlist) + {ToLower(hash)})
    {
      banlist := banlist + {ToLower(hash)};
      users := users - {ToLower(hash)};
    }

    method UnbanUser(hash: string) returns (ok: bool)
      modifies this`banlist
      ensures ok == (ToLower(hash) in old(banlist)) && banlist == old(banlist) - {ToLower(hash)}
    {
      ok := ToLower(hash) in banlist;
      banlist := banlist - {ToLower(hash)};
    }
  }

  // ---- the dispatcher ----

  lemma KeyIsHash(h: string)
    requires ToLower(h) == h && KeyOf(h).Some?
    ensures KeyOf(h) == Some(h)
  {
    forall i | 0 <= i < |h| ensures h[i] !in "ABCDEF" {
      assert ToLower(h)[i] == LowerChar(h[i]);
    }
    Hex.EncodeDecode(h);
  }

  /** What deriving the caller from the current roster gives. */
  ghost predicate IsCaller(cfg: Config, room: Room, c: Caller) {
    ToLower(c.hash) == c.hash && c == DeriveCaller(cfg, room, c.hash)
  }

  lemma DerivedIsCaller(cfg: Config, room: Room, sender: string)
    ensures IsCaller(cfg, room, DeriveCaller(cfg, room, sender))
  {
    LowerTwice(sender);
  }

  class Dispatcher {
    const cfg: Config
    const roster: Roster

    constructor (cfg: Config, roster: Roster)
      ensures this.cfg == cfg && this.roster == roster
    {
      this.cfg, this.roster := cfg, roster;
    }

    method HandleJoin(c: Caller, announced: string)
      requires IsCaller(cfg, roster.View(), c)
      modifies roster
      ensures roster.View() == Joined(cfg, old(roster.View()), c, announced)
    {
      if c.member || c.key.None? || c.key.value in roster.banlist { return; }
      if cfg.maxMembers > 0 && |roster.users| >= cfg.maxMembers { return; }
      KeyIsHash(c.hash);
      roster.AddOrUpdate(c.key.value);
      if announced != "" && roster.users[c.hash].nickname == "" { roster.SetNickname(c.hash, announced); }
    }

    method HandleFlags(c: Caller, paused: Option<bool>, textOnly: Option<bool>)
      requires IsCaller(cfg, roster.View(), c)
      modifies roster
      ensures roster.View() == Flagged(old(roster.View()), c, paused, textOnly)
    {
      if !c.member { return; }
      KeyIsHash(c.hash);
      var m := roster.users[c.hash];
      roster.SetFlags(c.hash, Or(paused, m.paused), Or(textOnly, m.textOnly));
    }

    method HandleNick(c: Caller, args: seq<string>)
      requires IsCaller(cfg, roster.View(), c)
      modifies roster
      ensures roster.View() == Renamed(old(roster.View()), c, args)
    {
      if |args| == 1 {
        if !c.member || !NickOk(args[0]) { return; }
        KeyIsHash(c.hash);
        roster.SetNickname(c.hash, args[0]);
      } else if |args| == 2 {
        if !AtLeastMod(c.role) { return; }
        var t := roster.Resolve(args[0]);
        if t.None? || !NickOk(args[1]) { return; }
        roster.SetNickname(t.value.hash, args[1]);
      }
    }

    method HandleUserMode(c: Caller, args: seq<string>)
      modifies roster
      ensures roster.View() == Granted(cfg, old(roster.View()), c, args)
    {
      if c.role != RoleAdmin || |args| != 2 { return; }
      var requested := ToLower(args[0]);
      if requested != "admin" && requested != "mod" && requested != "user" { return; }
      var t := roster.Resolve(args[1]);
      if t.None? { return; }
      var lowers := Rank(ParseRole(requested)) < Rank(RoleAdmin);
      if t.value.hash == c.hash && lowers && Rank(ConfigRole(cfg, c.hash)) < Rank(RoleAdmin) { return; }
      var _ := roster.SetRole(t.value.hash, if requested == "user" then "" else requested);
    }

    method HandleKick(c: Caller, args: seq<string>)
      modifies roster
      ensures roster.View() == Kicked(old(roster.View()), c, args)
    {
      if !AtLeastMod(c.role) || |args| != 1 { return; }
      var t := roster.Resolve(args[0]);
      if t.None? { return; }
      var _ := roster.Remove(t.value.hash);
    }

    method HandleBan(c: Caller, args: seq<string>)
      modifies roster
      ensures roster.View() == Banned(old(roster.View()), c, args)
    {
      if !AtLeastMod(c.role) || |args| != 1 { return; }
      var t := roster.Resolve(args[0]);
      if t.None? { return; }
      roster.BanUser(t.value.hash);
    }

    method BannedWithPrefix(q: string) returns (matches: set<string>)
      ensures matches == set h | h in roster.banlist && HasPrefix(h, q)
    {
      matches := {};
      var left := roster.banlist;
      while left != {}
        invariant left <= roster.banlist
        invariant matches == set h | h in roster.banlist && h !in left && HasPrefix(h, q)
        decreases left
      {
        var h :| h in left;
        left := left - {h};
        if HasPrefix(h, q) { matches := matches + {h}; }
      }
    }

    method HandleUnban(c: Caller, args: seq<string>)
      modifies roster
      ensures roster.View() == Unbanned(old(roster.View()), c, args)
    {
      if !AtLeastMod(c.role) || |args| != 1 { return; }
      var q := ToLower(args[0]);
      LowerTwice(args[0]);
      if q in roster.banlist {
        var _ := roster.UnbanUser(q);
        return;
      }
      var matches := BannedWithPrefix(q);
      if |matches| == 1 {
        var h :| h in matches;
        SoleElement(matches, h);
        var _ := roster.UnbanUser(h);
      }
    }

    method Dispatch(sender: string, cmd: Command)
      modifies roster
      ensures roster.View() == Apply(cfg, old(roster.View()), sender, cmd)
    {
      var c := DeriveCaller(cfg, Room(roster.users, roster.banlist), sender);
      DerivedIsCaller(cfg, roster.View(), sender);
      match cmd {
        case Join(announced) => HandleJoin(c, announced);
        case Leave => if c.member { var _ := roster.Remove(c.hash); }
        case SetPaused(on) => HandleFlags(c, Some(on), None);
        case SetTextOnly(on) => HandleFlags(c, None, Some(on));
        case Nick(args) => HandleNick(c, args);
        case UserMode(args) => HandleUserMode(c, args);
        case Kick(args) => HandleKick(c, args);
        case Ban(args) => HandleBan(c, args);
        case Unban(args) => HandleUnban(c, args);
        case ReadOnly =>
      }
    }
  }

  // ---- one command ----

  ghost predicate IsAdmin(cfg: Config, room: Room, h: string) {
    EffectiveRole(cfg, room, h) == RoleAdmin
  }

  /** The grant a room records for a hash. */
  function GrantOf(room: Room, h: string): Role {
    if KeyOf(h).Some? && KeyOf(h).value in room.users && h in room.users then ParseRole(room.users[h].role)
      else RoleUser
  }

  /** The effective role is the larger of the config's and the recorded grant: never below the config. */
  lemma EffectiveIsMax(cfg: Config, room: Room, h: string)
    ensures var r := Rank(EffectiveRole(cfg, room, h));
      && r >= Rank(ConfigRole(cfg, h)) && r >= Rank(GrantOf(room, ToLower(h)))
      && (r == Rank(ConfigRole(cfg, h)) || r == Rank(GrantOf(room, ToLower(h))))
  {
    LowerTwice(h);
  }

  lemma EditKeepsFiled(room: Room, h: string, m: Member)
    requires Filed(room) && m.hash == h && KeyOf(h) == Some(h) && ToLower(h) == h
    ensures Filed(Edit(room, h, m))
  {
  }

  lemma TargetIsFiled(room: Room, query: string)
    requires Filed(room) && Target(room, query).Some?
    ensures var h := Target(room, query).value.hash;
      h in room.users && ToLower(h) == h && KeyOf(h) == Some(h) && room.users[h].hash == h
  {
  }

  lemma RenamedKeepsFiled(room: Room, c: Caller, args: seq<string>)
    requires Filed(room)
    ensures Filed(Renamed(room, c, args))
  {
    if |args| == 2 && Target(room, args[0]).Some? { TargetIsFiled(room, args[0]); }
  }

  lemma GrantedKeepsFiled(cfg: Config, room: Room, c: Caller, args: seq<string>)
    requires Filed(room)
    ensures Filed(Granted(cfg, room, c, args))
  {
    if |args| == 2 && Target(room, args[1]).Some? { TargetIsFiled(room, args[1]); }
  }

  lemma WithoutKeepsFiled(room: Room, h: string, banlist: set<string>)
    requires Filed(room) && forall b :: b in banlist ==> b in room.banlist || ToLower(b) == b
    ensures Filed(Without(room, h)) && Filed(Without(room, h).(banlist := banlist)) && Filed(room.(banlist := banlist))
  {
  }

  lemma BannedKeepsFiled(room: Room, c: Caller, args: seq<string>)
    requires Filed(room)
    ensures Filed(Banned(room, c, args))
  {
    if |args| == 1 && Target(room, args[0]).Some? {
      TargetIsFiled(room, args[0]);
      var h := Target(room, args[0]).value.hash;
      WithoutKeepsFiled(room, h, room.banlist + {h});
    }
  }

  lemma KickedKeepsFiled(room: Room, c: Caller, args: seq<string>)
    requires Filed(room)
    ensures Filed(Kicked(room, c, args))
  {
    if |args| == 1 && Target(room, args[0]).Some? {
      WithoutKeepsFiled(room, ToLower(Target(room, args[0]).value.hash), {});
    }
  }

  lemma UnbannedKeepsFiled(room: Room, c: Caller, args: seq<string>)
    requires Filed(room)
    ensures Filed(Unbanned(room, c, args))
  {
    WithoutKeepsFiled(room, "", Unbanned(room, c, args).banlist);
  }

  lemma FlaggedKeepsFiled(room: Room, c: Caller, paused: Option<bool>, textOnly: Option<bool>)
    requires Filed(room)
    ensures Filed(Flagged(room, c, paused, textOnly))
  {
  }

  lemma JoinedKeepsFiled(cfg: Config, room: Room, c: Caller, announced: string)
    requires Filed(room) && IsCaller(cfg, room, c)
    ensures Filed(Joined(cfg, room, c, announced))
  {
    if c.key.Some? {
      KeyIsHash(c.hash);
      EditKeepsFiled(room, c.hash, Member(c.hash, announced, false, false, ""));
    }
  }

  lemma ApplyKeepsFiled(cfg: Config, room: Room, sender: string, cmd: Command)
    requires Filed(room)
    ensures Filed(Apply(cfg, room, sender, cmd))
  {
    var c := DeriveCaller(cfg, room, sender);
    DerivedIsCaller(cfg, room, sender);
    match cmd
    case Join(announced) => JoinedKeepsFiled(cfg, room, c, announced);
    case Nick(args) => RenamedKeepsFiled(room, c, args);
    case UserMode(args) => GrantedKeepsFiled(cfg, room, c, args);
    case Ban(args) => BannedKeepsFiled(room, c, args);
    case SetPaused(on) => FlaggedKeepsFiled(room, c, Some(on), None);
    case SetTextOnly(on) => FlaggedKeepsFiled(room, c, None, Some(on));
    case Leave => WithoutKeepsFiled(room, c.hash, {});
    case Kick(args) => KickedKeepsFiled(room, c, args);
    case Unban(args) => UnbannedKeepsFiled(room, c, args);
    case ReadOnly =>
  }

  /** Every entry of room' has the role it had in room, or none. */
  ghost predicate NoNewRoles(room: Room, room': Room) {
    forall h :: h in room'.users ==>
      room'.users[h].role == "" || (h in room.users && room'.users[h].role == room.users[h].role)
  }

  lemma OthersGrantNothing(cfg: Config, room: Room, sender: string, cmd: Command)
    requires !cmd.UserMode?
    ensures NoNewRoles(room, Apply(cfg, room, sender, cmd))
  {
  }

  lemma NoNewGrants(room: Room, room': Room, h: string)
    requires Filed(room) && NoNewRoles(room, room')
    ensures Rank(GrantOf(room', h)) <= Rank(GrantOf(room, h))
  {
  }

  lemma GrantedOnlyTarget(cfg: Config, room: Room, c: Caller, args: seq<string>, h: string)
    requires Filed(room)
    ensures Rank(GrantOf(Granted(cfg, room, c, args), h)) > Rank(GrantOf(room, h)) ==>
      c.role == RoleAdmin && |args| == 2 && Target(room, args[1]).Some? && Target(room, args[1]).value.hash == h
  {
    if |args| == 2 && Target(room, args[1]).Some? { TargetIsFiled(room, args[1]); }
  }

  /** Grants are made only by an admin's /usermode, and only for its target. */
  lemma OnlyUserModeGrants(cfg: Config, room: Room, sender: string, cmd: Command, h: string)
    requires Filed(room)
    ensures Rank(GrantOf(Apply(cfg, room, sender, cmd), h)) > Rank(GrantOf(room, h)) ==>
      && IsAdmin(cfg, room, sender) && cmd.UserMode? && |cmd.args| == 2
      && Target(room, cmd.args[1]).Some? && Target(room, cmd.args[1]).value.hash == h
  {
    if cmd.UserMode? {
      GrantedOnlyTarget(cfg, room, DeriveCaller(cfg, room, sender), cmd.args, h);
    } else {
      OthersGrantNothing(cfg, room, sender, cmd);
      NoNewGrants(room, Apply(cfg, room, sender, cmd), h);
    }
  }

  /** A command from anyone but an admin makes no new admin. */
  lemma NonAdminsMakeNoAdmins(cfg: Config, room: Room, sender: string, cmd: Command, h: string)
    requires Filed(room) && !IsAdmin(cfg, room, sender)
    ensures IsAdmin(cfg, Apply(cfg, room, sender, cmd), h) ==> IsAdmin(cfg, room, h)
  {
    EffectiveIsMax(cfg, room, h);
    EffectiveIsMax(cfg, Apply(cfg, room, sender, cmd), h);
    OnlyUserModeGrants(cfg, room, sender, cmd, ToLower(h));
  }

  /** An admin who uses /usermode is still an admin afterwards. */
  lemma UserModeKeepsCaller(cfg: Config, room: Room, sender: string, args: seq<string>)
    requires Filed(room) && IsAdmin(cfg, room, sender)
    ensures IsAdmin(cfg, Apply(cfg, room, sender, UserMode(args)), sender)
  {
    var c := DeriveCaller(cfg, room, sender);
    DerivedIsCaller(cfg, room, sender);
    if c.key.Some? { KeyIsHash(c.hash); }
  }

  // ---- bans and the member cap ----

  ghost predicate WithinLimits(cfg: Config, room: Room) {
    && (forall h :: h in room.banlist ==> h !in room.users)
    && (cfg.maxMembers > 0 ==> |room.users| <= cfg.maxMembers)
  }

  /** Only /join adds a member, and never a banned one. */
  lemma MembersFrom(cfg: Config, room: Room, sender: string, cmd: Command)
    requires Filed(room)
    ensures !cmd.Join? ==> Apply(cfg, room, sender, cmd).users.Keys <= room.users.Keys
  {
    var c := DeriveCaller(cfg, room, sender);
    DerivedIsCaller(cfg, room, sender);
    if c.key.Some? { KeyIsHash(c.hash); }
  }

  lemma JoinKeepsLimits(cfg: Config, room: Room, c: Caller, announced: string)
    requires WithinLimits(cfg, room) && IsCaller(cfg, room, c)
    ensures WithinLimits(cfg, Joined(cfg, room, c, announced))
  {
    var room' := Joined(cfg, room, c, announced);
    if room' != room { assert room'.users.Keys == room.users.Keys + {c.key.value}; }
  }

  /** Whoever is newly banned is out. */
  lemma NewBansAreOut(cfg: Config, room: Room, sender: string, cmd: Command, h: string)
    requires h in Apply(cfg, room, sender, cmd).banlist && h !in room.banlist
    ensures h !in Apply(cfg, room, sender, cmd).users
  {
  }

  lemma BansKeepOut(cfg: Config, room: Room, sender: string, cmd: Command, h: string)
    requires Filed(room) && WithinLimits(cfg, room) && !cmd.Join? && h in Apply(cfg, room, sender, cmd).banlist
    ensures h !in Apply(cfg, room, sender, cmd).users
  {
    if h in room.banlist { MembersFrom(cfg, room, sender, cmd); } else { NewBansAreOut(cfg, room, sender, cmd, h); }
  }

  lemma ApplyKeepsLimits(cfg: Config, room: Room, sender: string, cmd: Command)
    requires Filed(room) && WithinLimits(cfg, room)
    ensures WithinLimits(cfg, Apply(cfg, room, sender, cmd))
  {
    var room' := Apply(cfg, room, sender, cmd);
    if cmd.Join? {
      DerivedIsCaller(cfg, room, sender);
      JoinKeepsLimits(cfg, room, DeriveCaller(cfg, room, sender), cmd.announced);
    } else {
      MembersFrom(cfg, room, sender, cmd);
      SubsetSize(room'.users.Keys, room.users.Keys);
      forall h | h in room'.banlist ensures h !in room'.users { BansKeepOut(cfg, room, sender, cmd, h); }
    }
  }

  // ---- addresses ----

  lemma {:induction false} HexIsLower(b: Bytes)
    ensures ToLower(Hex.Encode(b)) == Hex.Encode(b)
  {
    if b != [] { HexIsLower(b[1..]); }
  }

  lemma KeyOfOctets(b: Bytes)
    requires |b| == 16
    ensures var k := Hex.Encode(b); KeyOf(k) == Some(k) && ToLower(k) == k
  {
    Hex.DecodeEncode(b);
    HexIsLower(b);
  }

  // ---- whom a query names ----

  /** The member's nickname reads as the query, whatever the case. */
  predicate Nicked(m: Member, q: string) { ToLower(m.nickname) == q }

  /** The query is four or more hex digits that begin the member's hash. */
  predicate Prefixed(m: Member, q: string) { |q| >= 4 && IsHexPrefix(q) && HasPrefix(m.hash, q) }

  /** A query names a member exactly when it is the only one nicked so, or nobody is and it is the only one whose
      hash starts so: a nickname goes before a hash, and two candidates are none. */
  lemma ResolvesIff(room: Room, query: string, h: string)
    ensures var q := ToLower(query);
      Resolved(room.users, query) == Some(h) <==>
        && q != "" && h in room.users
        && if exists x :: x in room.users && Nicked(room.users[x], q) then
             Nicked(room.users[h], q) && forall x :: x in room.users && Nicked(room.users[x], q) ==> x == h
           else Prefixed(room.users[h], q) && forall x :: x in room.users && Prefixed(room.users[x], q) ==> x == h
  {
    var q := ToLower(query);
    var nicks, prefixes := ByNick(room.users, q), ByPrefix(room.users, q);
    if x :| x in room.users && Nicked(room.users[x], q) { assert x in nicks; }
    if x :| x in nicks { assert Nicked(room.users[x], q); }
    assert forall x :: x in nicks <==> x in room.users && Nicked(room.users[x], q);
    assert |q| >= 4 && IsHexPrefix(q) ==> forall x :: x in prefixes <==> x in room.users && Prefixed(room.users[x], q);
    SoleIff(nicks, h);
    SoleIff(prefixes, h);
  }

  lemma SoleIff(s: set<string>, h: string)
    ensures Sole(s) == Some(h) <==> h in s && forall x :: x in s ==> x == h
  {
    if h in s && forall x :: x in s ==> x == h { assert s == {h}; }
  }

  /** Nicknames are 1 to 24 ASCII digits, letters, underscores and hyphens. */
  lemma NickOkIff(s: string)
    ensures NickOk(s) <==>
      && s != "" && |s| < 25
      && forall i :: 0 <= i < |s| ==>
        var n := s[i] as int; 48 <= n <= 57 || 65 <= n <= 90 || 97 <= n <= 122 || n == 95 || n == 45
  {
  }
}
