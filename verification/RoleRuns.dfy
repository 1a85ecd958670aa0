/** Runs of commands as the service receives them, one at a time and none from a banned sender, and of the
    sweeps that prune the roster: who can become, stay and stop being an admin. */
module RoleRuns {
  import opened Octets
  import Hex
  import opened Roles

  /** A source hash: the service knows a sender by these 16 octets. */
  type Address = b: Bytes | |b| == 16 witness seq(16, _ => 0)

  function Name(a: Address): string {
    Hex.Encode(a)
  }

  lemma NameIsKey(a: Address)
    ensures KeyOf(Name(a)) == Some(Name(a)) && ToLower(Name(a)) == Name(a) && |Name(a)| == 32
  {
    KeyOfOctets(a);
  }

  lemma NameInjective(a: Address, b: Address)
    ensures Name(a) == Name(b) <==> a == b
  {
    Hex.DecodeEncode(a);
    Hex.DecodeEncode(b);
  }

  /** A filed key is somebody's name. */
  lemma KeyIsName(h: string) returns (a: Address)
    requires KeyOf(h) == Some(h)
    ensures Name(a) == h
  {
    a := Hex.Decode(h).value;
  }

  /** A command, or a sweep of the members whose last activity is past a cutoff. */
  datatype Event = Sent(source: Address, cmd: Command) | Sweep(stale: set<string>)

  /** A banned sender's message is dropped before anything looks at it. */
  ghost function Received(cfg: Config, room: Room, e: Event): Room {
    match e
    case Sent(source, cmd) => if Name(source) in room.banlist then room else Apply(cfg, room, Name(source), cmd)
    case Sweep(stale) => room.(users := room.users - stale)
  }

  class Inbox {
    const dispatcher: Dispatcher

    constructor (d: Dispatcher)
      ensures dispatcher == d
    {
      dispatcher := d;
    }

    /** The part of onLXMFReceived that leads to a command. */
    method OnCommand(source: Address, cmd: Command)
      modifies dispatcher.roster
      ensures dispatcher.roster.View() == Received(dispatcher.cfg, old(dispatcher.roster.View()), Sent(source, cmd))
    {
      if Name(source) in dispatcher.roster.banlist { return; }
      dispatcher.Dispatch(Name(source), cmd);
    }

    /** One tick of the prune loop. */
    method OnTick(stale: set<string>)
      modifies dispatcher.roster
      ensures dispatcher.roster.View() == Received(dispatcher.cfg, old(dispatcher.roster.View()), Sweep(stale))
    {
      var _ := dispatcher.roster.Prune(stale);
    }
  }

  ghost function Run(cfg: Config, room: Room, events: seq<Event>): Room {
    if events == [] then room
    else Received(cfg, Run(cfg, room, events[..|events| - 1]), events[|events| - 1])
  }

  lemma {:induction false} RunAppend(cfg: Config, room: Room, a: seq<Event>, b: seq<Event>)
    ensures Run(cfg, room, a + b) == Run(cfg, Run(cfg, room, a), b)
  {
    if b == [] {
      assert a + b == a;
    } else {
      assert (a + b)[..|a + b| - 1] == a + b[..|b| - 1];
      RunAppend(cfg, room, a, b[..|b| - 1]);
    }
  }

  lemma RunOne(cfg: Config, room: Room, e: Event)
    ensures Run(cfg, room, [e]) == Received(cfg, room, e)
  {
    assert [e][..0] == [];
  }

  /** Filed, no member banned, and within the cap. */
  ghost predicate Sound(cfg: Config, room: Room) {
    Filed(room) && WithinLimits(cfg, room)
  }

  lemma EventKeepsFiled(cfg: Config, room: Room, e: Event)
    requires Filed(room)
    ensures Filed(Received(cfg, room, e))
  {
    if e.Sent? { ApplyKeepsFiled(cfg, room, Name(e.source), e.cmd); }
  }

  lemma EventKeepsLimits(cfg: Config, room: Room, e: Event)
    requires Filed(room) && WithinLimits(cfg, room)
    ensures WithinLimits(cfg, Received(cfg, room, e))
  {
    match e
    case Sent(source, cmd) => ApplyKeepsLimits(cfg, room, Name(source), cmd);
    case Sweep(stale) => SubsetSize((room.users - stale).Keys, room.users.Keys);
  }

  /** No run misfiles an entry, lets a banned hash be a member, or outgrows the cap. */
  lemma {:induction false} RunKeepsSound(cfg: Config, room: Room, events: seq<Event>)
    requires Filed(room)
    ensures Filed(Run(cfg, room, events)) && (Sound(cfg, room) ==> Sound(cfg, Run(cfg, room, events)))
  {
    if events != [] {
      var e := events[|events| - 1];
      var before := Run(cfg, room, events[..|events| - 1]);
      RunKeepsSound(cfg, room, events[..|events| - 1]);
      EventKeepsFiled(cfg, before, e);
      if Sound(cfg, room) { EventKeepsLimits(cfg, before, e); }
    }
  }

  // ---- admins that are heard ----

  /** An admin whose messages are not dropped. */
  ghost predicate Usable(cfg: Config, room: Room, a: Address) {
    IsAdmin(cfg, room, Name(a)) && Name(a) !in room.banlist
  }

  ghost predicate HasAdmin(cfg: Config, room: Room) {
    exists a: Address :: Usable(cfg, room, a)
  }

  lemma UsableIff(cfg: Config, room: Room, a: Address)
    ensures Usable(cfg, room, a) <==>
      && (ConfigRole(cfg, Name(a)) == RoleAdmin || GrantOf(room, Name(a)) == RoleAdmin)
      && Name(a) !in room.banlist
  {
    NameIsKey(a);
    EffectiveIsMax(cfg, room, Name(a));
  }

  /** The one member a command's argument names. */
  ghost predicate Aims(room: Room, query: string, h: string) {
    Target(room, query).Some? && Target(room, query).value.hash == h
  }

  /** The guards under which an event takes a usable admin's standing away: a mod or admin bans it; or, if
      only a grant made it admin, it leaves, is kicked, is swept, or another admin lowers its grant. */
  ghost predicate Strips(cfg: Config, room: Room, e: Event, a: Address) {
    match e
    case Sent(_, _) => CommandStrips(cfg, room, e, a)
    case Sweep(stale) => Name(a) in stale && ConfigRole(cfg, Name(a)) != RoleAdmin
  }

  ghost predicate CommandStrips(cfg: Config, room: Room, e: Event, a: Address)
    requires e.Sent?
  {
    var role := EffectiveRole(cfg, room, Name(e.source));
    && Name(e.source) !in room.banlist
    && match e.cmd
       case Ban(args) => AtLeastMod(role) && |args| == 1 && Aims(room, args[0], Name(a))
       case Leave => e.source == a && ConfigRole(cfg, Name(a)) != RoleAdmin
       case Kick(args) =>
         AtLeastMod(role) && |args| == 1 && Aims(room, args[0], Name(a)) && ConfigRole(cfg, Name(a)) != RoleAdmin
       case UserMode(args) =>
         && role == RoleAdmin && |args| == 2 && ToLower(args[0]) in ["mod", "user"] && Aims(room, args[1], Name(a))
         && e.source != a && ConfigRole(cfg, Name(a)) != RoleAdmin
       case _ => false
  }

  lemma BanStrips(cfg: Config, room: Room, e: Event, a: Address)
    requires Filed(room) && Usable(cfg, room, a) && e.Sent? && e.cmd.Ban?
    ensures !Usable(cfg, Received(cfg, room, e), a) <==> Strips(cfg, room, e, a)
  {
    var room' := Received(cfg, room, e);
    UsableIff(cfg, room, a);
    UsableIff(cfg, room', a);
    var args := e.cmd.args;
    if |args| == 1 && Target(room, args[0]).Some? { TargetIsFiled(room, args[0]); }
  }

  lemma KickStrips(cfg: Config, room: Room, e: Event, a: Address)
    requires Filed(room) && Usable(cfg, room, a) && e.Sent? && e.cmd.Kick?
    ensures !Usable(cfg, Received(cfg, room, e), a) <==> Strips(cfg, room, e, a)
  {
    var room' := Received(cfg, room, e);
    UsableIff(cfg, room, a);
    UsableIff(cfg, room', a);
    var args := e.cmd.args;
    if |args| == 1 && Target(room, args[0]).Some? { TargetIsFiled(room, args[0]); }
  }

  lemma LeaveStrips(cfg: Config, room: Room, e: Event, a: Address)
    requires Filed(room) && Usable(cfg, room, a) && e.Sent? && e.cmd.Leave?
    ensures !Usable(cfg, Received(cfg, room, e), a) <==> Strips(cfg, room, e, a)
  {
    var room' := Received(cfg, room, e);
    UsableIff(cfg, room, a);
    UsableIff(cfg, room', a);
    NameIsKey(e.source);
    NameInjective(e.source, a);
  }

  /** When /usermode takes effect on h. */
  ghost predicate SetsGrant(cfg: Config, room: Room, c: Caller, args: seq<string>, h: string) {
    && c.role == RoleAdmin && |args| == 2 && ToLower(args[0]) in ["admin", "mod", "user"] && Aims(room, args[1], h)
    && !(h == c.hash && ToLower(args[0]) != "admin" && ConfigRole(cfg, h) != RoleAdmin)
  }

  /** What the roster keeps for a requested role. */
  function Stored(requested: string): string {
    if requested == "user" then "" else requested
  }

  lemma GrantSet(cfg: Config, room: Room, c: Caller, args: seq<string>, h: string)
    requires Filed(room) && SetsGrant(cfg, room, c, args, h)
    ensures var room' := Granted(cfg, room, c, args);
      h in room.users && room'.banlist == room.banlist
      && room'.users == room.users[h := room.users[h].(role := Stored(ToLower(args[0])))]
  {
    TargetIsFiled(room, args[1]);
  }

  lemma GrantNotSet(cfg: Config, room: Room, c: Caller, args: seq<string>, h: string)
    requires Filed(room) && !SetsGrant(cfg, room, c, args, h)
    ensures var room' := Granted(cfg, room, c, args);
      && room'.users.Keys == room.users.Keys && room'.banlist == room.banlist
      && (h in room.users ==> room'.users[h] == room.users[h])
  {
    if |args| == 2 && Target(room, args[1]).Some? { TargetIsFiled(room, args[1]); }
  }

  lemma GrantedEffect(cfg: Config, room: Room, c: Caller, args: seq<string>, h: string)
    requires Filed(room) && KeyOf(h) == Some(h)
    ensures GrantOf(Granted(cfg, room, c, args), h) ==
      if SetsGrant(cfg, room, c, args, h) then ParseRole(ToLower(args[0])) else GrantOf(room, h)
    ensures Granted(cfg, room, c, args).banlist == room.banlist
  {
    if SetsGrant(cfg, room, c, args, h) {
      GrantSet(cfg, room, c, args, h);
    } else {
      GrantNotSet(cfg, room, c, args, h);
    }
  }

  lemma UserModeStrips(cfg: Config, room: Room, e: Event, a: Address)
    requires Filed(room) && Usable(cfg, room, a) && e.Sent? && e.cmd.UserMode?
    ensures !Usable(cfg, Received(cfg, room, e), a) <==> Strips(cfg, room, e, a)
  {
    var c := DeriveCaller(cfg, room, Name(e.source));
    UsableIff(cfg, room, a);
    UsableIff(cfg, Received(cfg, room, e), a);
    NameIsKey(e.source);
    NameIsKey(a);
    NameInjective(e.source, a);
    GrantedEffect(cfg, room, c, e.cmd.args, Name(a));
  }

  predicate Harmless(cmd: Command) {
    !cmd.Ban? && !cmd.Kick? && !cmd.Leave? && !cmd.UserMode?
  }

  /** Every member stays, with its grant, and nobody is newly banned. */
  ghost predicate KeepsGrants(room: Room, room': Room) {
    && room'.banlist <= room.banlist
    && forall h :: h in room.users ==> h in room'.users && room'.users[h].role == room.users[h].role
  }

  lemma HarmlessKeepsGrants(cfg: Config, room: Room, sender: string, cmd: Command)
    requires Harmless(cmd)
    ensures KeepsGrants(room, Apply(cfg, room, sender, cmd))
  {
  }

  lemma OthersStripNothing(cfg: Config, room: Room, e: Event, a: Address)
    requires Usable(cfg, room, a) && e.Sent? && Harmless(e.cmd)
    ensures Usable(cfg, Received(cfg, room, e), a)
  {
    UsableIff(cfg, room, a);
    UsableIff(cfg, Received(cfg, room, e), a);
    NameIsKey(a);
    HarmlessKeepsGrants(cfg, room, Name(e.source), e.cmd);
  }

  lemma SweepStrips(cfg: Config, room: Room, e: Event, a: Address)
    requires Usable(cfg, room, a) && e.Sweep?
    ensures !Usable(cfg, Received(cfg, room, e), a) <==> Strips(cfg, room, e, a)
  {
    NameIsKey(a);
    UsableIff(cfg, room, a);
    UsableIff(cfg, Received(cfg, room, e), a);
  }

  /** An event takes a usable admin's standing away exactly under those guards. */
  lemma StripsIff(cfg: Config, room: Room, e: Event, a: Address)
    requires Filed(room) && Usable(cfg, room, a)
    ensures !Usable(cfg, Received(cfg, room, e), a) <==> Strips(cfg, room, e, a)
  {
    match e
    case Sweep(_) => SweepStrips(cfg, room, e, a);
    case Sent(_, Ban(_)) => BanStrips(cfg, room, e, a);
    case Sent(_, Kick(_)) => KickStrips(cfg, room, e, a);
    case Sent(_, Leave) => LeaveStrips(cfg, room, e, a);
    case Sent(_, UserMode(_)) => UserModeStrips(cfg, room, e, a);
    case Sent(_, _) => OthersStripNothing(cfg, room, e, a);
  }

  lemma BanKept(cfg: Config, room: Room, e: Event, h: string)
    requires h in room.banlist && (e.Sent? ==> !e.cmd.Unban?)
    ensures h in Received(cfg, room, e).banlist
  {
  }

  predicate MakesAdmin(e: Event) {
    e.Sent? && e.cmd.UserMode? && |e.cmd.args| == 2 && ToLower(e.cmd.args[0]) == "admin"
  }

  lemma GrantsRise(cfg: Config, room: Room, e: Event, h: string)
    requires Filed(room) && !MakesAdmin(e)
    ensures GrantOf(Received(cfg, room, e), h) == RoleAdmin ==> GrantOf(room, h) == RoleAdmin
  {
    if e.Sent? && e.cmd.UserMode? {
      var args := e.cmd.args;
      if |args| == 2 && Target(room, args[1]).Some? { TargetIsFiled(room, args[1]); }
    } else if e.Sent? {
      OthersGrantNothing(cfg, room, Name(e.source), e.cmd);
      NoNewGrants(room, Received(cfg, room, e), h);
    }
  }

  /** A new usable admin is an admin's /usermode target, or a config admin no longer banned. */
  lemma NewUsable(cfg: Config, room: Room, e: Event, a: Address)
    requires Filed(room) && (e.Sent? ==> !e.cmd.Unban?) && !MakesAdmin(e)
    ensures Usable(cfg, Received(cfg, room, e), a) ==> Usable(cfg, room, a)
  {
    UsableIff(cfg, room, a);
    UsableIff(cfg, Received(cfg, room, e), a);
    GrantsRise(cfg, room, e, Name(a));
    if Name(a) in room.banlist { BanKept(cfg, room, e, Name(a)); }
  }

  /** An event that strips somebody makes nobody an admin. */
  lemma StrippingMakesNone(cfg: Config, room: Room, e: Event, b: Address, a: Address)
    requires Filed(room) && Strips(cfg, room, e, b)
    ensures Usable(cfg, Received(cfg, room, e), a) ==> Usable(cfg, room, a)
  {
    NewUsable(cfg, room, e, a);
  }

  /** One event leaves a room without a usable admin exactly when it strips every one there is. */
  lemma LastAdminLostIff(cfg: Config, room: Room, e: Event)
    requires Filed(room) && HasAdmin(cfg, room)
    ensures !HasAdmin(cfg, Received(cfg, room, e)) <==>
      forall a: Address :: Usable(cfg, room, a) ==> Strips(cfg, room, e, a)
  {
    var room' := Received(cfg, room, e);
    forall a: Address | Usable(cfg, room, a) ensures !Usable(cfg, room', a) <==> Strips(cfg, room, e, a) {
      StripsIff(cfg, room, e, a);
    }
    var b: Address :| Usable(cfg, room, b);
    if forall a: Address :: Usable(cfg, room, a) ==> Strips(cfg, room, e, a) {
      forall a: Address ensures !Usable(cfg, room', a) { StrippingMakesNone(cfg, room, e, b, a); }
    }
  }

  /** Over a run: an admin is there at every point exactly when no event strips all of them. */
  lemma {:induction false} AdminSurvivesIff(cfg: Config, room: Room, events: seq<Event>)
    requires Filed(room) && HasAdmin(cfg, room)
    ensures (forall k :: 0 <= k <= |events| ==> HasAdmin(cfg, Run(cfg, room, events[..k]))) <==>
      forall k :: 0 <= k < |events| ==> Spared(cfg, Run(cfg, room, events[..k]), events[k])
  {
    forall k | 0 <= k < |events| && HasAdmin(cfg, Run(cfg, room, events[..k]))
      ensures HasAdmin(cfg, Run(cfg, room, events[..k + 1])) <==> Spared(cfg, Run(cfg, room, events[..k]), events[k])
    {
      SparedStep(cfg, room, events, k);
    }
    if forall k :: 0 <= k < |events| ==> Spared(cfg, Run(cfg, room, events[..k]), events[k]) {
      for k := 0 to |events|
        invariant forall j :: 0 <= j <= k ==> HasAdmin(cfg, Run(cfg, room, events[..j]))
      {
        assert Spared(cfg, Run(cfg, room, events[..k]), events[k]);
      }
    } else {
      var k :| 0 <= k < |events| && !Spared(cfg, Run(cfg, room, events[..k]), events[k]);
      if HasAdmin(cfg, Run(cfg, room, events[..k])) { assert !HasAdmin(cfg, Run(cfg, room, events[..k + 1])); }
    }
  }

  /** Some usable admin is not stripped. */
  ghost predicate Spared(cfg: Config, room: Room, e: Event) {
    exists a: Address :: Usable(cfg, room, a) && !Strips(cfg, room, e, a)
  }

  lemma SparedStep(cfg: Config, room: Room, events: seq<Event>, k: nat)
    requires Filed(room) && k < |events| && HasAdmin(cfg, Run(cfg, room, events[..k]))
    ensures HasAdmin(cfg, Run(cfg, room, events[..k + 1])) <==> Spared(cfg, Run(cfg, room, events[..k]), events[k])
  {
    var before := Run(cfg, room, events[..k]);
    assert events[..k + 1][..k] == events[..k];
    RunKeepsSound(cfg, room, events[..k]);
    LastAdminLostIff(cfg, before, events[k]);
  }

  // ---- what non-admins and /usermode can do ----

  /** No event of the run is a heard admin's. */
  ghost predicate NoAdminActs(cfg: Config, room: Room, events: seq<Event>) {
    forall i :: 0 <= i < |events| && events[i].Sent? ==> !Usable(cfg, Run(cfg, room, events[..i]), events[i].source)
  }

  lemma SweepMakesNoAdmins(cfg: Config, room: Room, stale: set<string>, h: string)
    ensures IsAdmin(cfg, room.(users := room.users - stale), h) ==> IsAdmin(cfg, room, h)
  {
    EffectiveIsMax(cfg, room, h);
    EffectiveIsMax(cfg, room.(users := room.users - stale), h);
  }

  /** However long non-admins go on, whoever is an admin at the end was one at the start. */
  lemma {:induction false} NonAdminRunsMakeNoAdmins(cfg: Config, room: Room, events: seq<Event>, h: string)
    requires Filed(room) && NoAdminActs(cfg, room, events)
    ensures IsAdmin(cfg, Run(cfg, room, events), h) ==> IsAdmin(cfg, room, h)
  {
    if events != [] {
      var earlier, e := events[..|events| - 1], events[|events| - 1];
      assert NoAdminActs(cfg, room, earlier) by {
        forall i | 0 <= i < |earlier| && earlier[i].Sent?
          ensures !Usable(cfg, Run(cfg, room, earlier[..i]), earlier[i].source)
        {
          assert earlier[..i] == events[..i] && earlier[i] == events[i];
        }
      }
      NonAdminRunsMakeNoAdmins(cfg, room, earlier, h);
      RunKeepsSound(cfg, room, earlier);
      var before := Run(cfg, room, earlier);
      if e.Sent? {
        assert !Usable(cfg, before, e.source);
        if Name(e.source) !in before.banlist { NonAdminsMakeNoAdmins(cfg, before, Name(e.source), e.cmd, h); }
      } else {
        SweepMakesNoAdmins(cfg, before, e.stale, h);
      }
    }
  }

  lemma UserModeSpares(cfg: Config, room: Room, e: Event)
    requires Filed(room) && HasAdmin(cfg, room) && e.Sent? && e.cmd.UserMode?
    ensures HasAdmin(cfg, Received(cfg, room, e))
  {
    if Usable(cfg, room, e.source) {
      assert !Strips(cfg, room, e, e.source);
      StripsIff(cfg, room, e, e.source);
    } else {
      assert Received(cfg, room, e) == room;
    }
  }

  /** No run of /usermode commands, by anyone, locks every admin out. */
  lemma {:induction false} UserModeNeverLocksOut(cfg: Config, room: Room, events: seq<Event>)
    requires Filed(room) && HasAdmin(cfg, room)
    requires forall i :: 0 <= i < |events| ==> events[i].Sent? && events[i].cmd.UserMode?
    ensures HasAdmin(cfg, Run(cfg, room, events))
  {
    if events != [] {
      var earlier := events[..|events| - 1];
      UserModeNeverLocksOut(cfg, room, earlier);
      RunKeepsSound(cfg, room, earlier);
      UserModeSpares(cfg, Run(cfg, room, earlier), events[|events| - 1]);
    }
  }

  // ---- bans ----

  /** The run without one sender's events. */
  function Without(events: seq<Event>, a: Address): seq<Event> {
    if events == [] then []
    else
      var e := events[|events| - 1];
      Without(events[..|events| - 1], a) + if e.Sent? && e.source == a then [] else [e]
  }

  /** Until somebody lifts a ban, the banned hash stays banned and out, and the run is as if it had sent nothing. */
  lemma {:induction false} BannedHasNoSay(cfg: Config, room: Room, events: seq<Event>, a: Address)
    requires Sound(cfg, room) && Name(a) in room.banlist
    requires forall i :: 0 <= i < |events| && events[i].Sent? ==> !events[i].cmd.Unban?
    ensures var r := Run(cfg, room, events); Name(a) in r.banlist && Name(a) !in r.users
    ensures Run(cfg, room, events) == Run(cfg, room, Without(events, a))
  {
    RunKeepsSound(cfg, room, events);
    if events != [] {
      var earlier, e := events[..|events| - 1], events[|events| - 1];
      BannedHasNoSay(cfg, room, earlier, a);
      BanKept(cfg, Run(cfg, room, earlier), e, Name(a));
      var kept := Without(earlier, a);
      if e.Sent? && e.source == a {
        assert Without(events, a) == kept;
      } else {
        assert (kept + [e])[..|kept|] == kept;
      }
    }
  }

  // ---- what all commands can do ----

  /** A config admin that is not banned. */
  ghost predicate ConfigAdminHeard(cfg: Config, room: Room) {
    exists a: Address :: ConfigRole(cfg, Name(a)) == RoleAdmin && Name(a) !in room.banlist
  }

  ghost predicate BanFree(events: seq<Event>) {
    forall i :: 0 <= i < |events| && events[i].Sent? ==> !events[i].cmd.Ban?
  }

  lemma OnlyBanBans(cfg: Config, room: Room, e: Event)
    requires e.Sent? ==> !e.cmd.Ban?
    ensures Received(cfg, room, e).banlist <= room.banlist
  {
  }

  lemma {:induction false} BanFreeBansNobody(cfg: Config, room: Room, events: seq<Event>)
    requires BanFree(events)
    ensures Run(cfg, room, events).banlist <= room.banlist
  {
    if events != [] {
      BanFreeBansNobody(cfg, room, events[..|events| - 1]);
      OnlyBanBans(cfg, Run(cfg, room, events[..|events| - 1]), events[|events| - 1]);
    }
  }

  lemma LeaveLeaves(cfg: Config, room: Room, a: Address)
    requires Sound(cfg, room) && Name(a) in room.users
    ensures Received(cfg, room, Sent(a, Leave)) == room.(users := room.users - {Name(a)})
  {
    NameIsKey(a);
  }

  lemma OneLeaves(cfg: Config, room: Room, h: string) returns (e: Event)
    requires Sound(cfg, room) && h in room.users
    ensures e.Sent? && e.cmd.Leave?
    ensures var room' := room.(users := room.users - {h}); Received(cfg, room, e) == room' && Sound(cfg, room')
  {
    var a := KeyIsName(h);
    e := Sent(a, Leave);
    LeaveLeaves(cfg, room, a);
    SubsetSize((room.users - {h}).Keys, room.users.Keys);
  }

  /** Everybody can leave. */
  lemma {:induction false} EveryoneLeaves(cfg: Config, room: Room) returns (events: seq<Event>)
    requires Sound(cfg, room)
    ensures BanFree(events) && Run(cfg, room, events) == Room(map[], room.banlist)
    decreases room.users.Keys
  {
    events := [];
    if room.users == map[] {
      assert room == Room(map[], room.banlist);
    } else {
      var h :| h in room.users;
      var e := OneLeaves(cfg, room, h);
      RunOne(cfg, room, e);
      var rest := EveryoneLeaves(cfg, room.(users := room.users - {h}));
      RunAppend(cfg, room, [e], rest);
      events := [e] + rest;
    }
  }

  lemma EmptyRoomAdmins(cfg: Config, room: Room)
    requires room.users == map[] && !ConfigAdminHeard(cfg, room)
    ensures !HasAdmin(cfg, room)
  {
    forall a: Address ensures !Usable(cfg, room, a) { UsableIff(cfg, room, a); }
  }

  /** Without /ban: an admin survives every run exactly when the config names one that is not banned. */
  lemma BanFreeSurvivalIff(cfg: Config, room: Room)
    requires Sound(cfg, room)
    ensures (forall events :: BanFree(events) ==> HasAdmin(cfg, Run(cfg, room, events))) <==>
      ConfigAdminHeard(cfg, room)
  {
    if ConfigAdminHeard(cfg, room) {
      var a: Address :| ConfigRole(cfg, Name(a)) == RoleAdmin && Name(a) !in room.banlist;
      forall events | BanFree(events) ensures HasAdmin(cfg, Run(cfg, room, events)) {
        BanFreeBansNobody(cfg, room, events);
        UsableIff(cfg, Run(cfg, room, events), a);
        assert Usable(cfg, Run(cfg, room, events), a);
      }
    } else {
      var events := EveryoneLeaves(cfg, room);
      EmptyRoomAdmins(cfg, Run(cfg, room, events));
    }
  }

  lemma {:induction false} NameIsHex(b: Bytes)
    ensures IsHexPrefix(Hex.Encode(b))
  {
    if b != [] { NameIsHex(b[1..]); }
  }

  lemma OnlyMemberFound(room: Room, a: Address)
    requires room.users == map[Name(a) := Member(Name(a), "", false, false, "")]
    ensures Aims(room, Name(a), Name(a))
  {
    var n := Name(a);
    assert ToLower(n) == n && |n| == 32 by { NameIsKey(a); }
    assert IsHexPrefix(n) by { NameIsHex(a); }
    assert ByNick(room.users, n) == {};
    assert ByPrefix(room.users, n) == {n};
    assert Resolved(room.users, n) == Sole({n});
  }

  /** The room with one fresh member. */
  function Alone(a: Address, banlist: set<string>): Room {
    Room(map[Name(a) := Member(Name(a), "", false, false, "")], banlist)
  }

  lemma JoinsEmpty(cfg: Config, room: Room, a: Address)
    requires room.users == map[] && Name(a) !in room.banlist
    ensures Received(cfg, room, Sent(a, Join(""))) == Alone(a, room.banlist)
  {
    NameIsKey(a);
  }

  /** What a /ban that is heard, allowed and aimed does. */
  lemma BanTakes(cfg: Config, room: Room, a: Address, query: string, h: string)
    requires Name(a) !in room.banlist && AtLeastMod(EffectiveRole(cfg, room, Name(a)))
    requires Aims(room, query, h) && ToLower(h) == h
    ensures Received(cfg, room, Sent(a, Ban([query]))) == Room(room.users - {h}, room.banlist + {h})
  {
  }

  lemma BansItself(cfg: Config, banlist: set<string>, a: Address)
    requires Name(a) !in banlist && ConfigRole(cfg, Name(a)) == RoleAdmin
    ensures Received(cfg, Alone(a, banlist), Sent(a, Ban([Name(a)]))) == Room(map[], banlist + {Name(a)})
  {
    var room := Alone(a, banlist);
    assert Aims(room, Name(a), Name(a)) by { OnlyMemberFound(room, a); }
    assert ToLower(Name(a)) == Name(a) by { NameIsKey(a); }
    assert AtLeastMod(EffectiveRole(cfg, room, Name(a))) by { EffectiveIsMax(cfg, room, Name(a)); }
    BanTakes(cfg, room, a, Name(a), Name(a));
    assert room.users - {Name(a)} == map[];
  }

  /** A config admin can join an empty room and ban itself. */
  lemma SelfBan(cfg: Config, room: Room, a: Address) returns (events: seq<Event>)
    requires room.users == map[] && Name(a) !in room.banlist && ConfigRole(cfg, Name(a)) == RoleAdmin
    ensures Run(cfg, room, events) == Room(map[], room.banlist + {Name(a)})
  {
    var join, ban := Sent(a, Join("")), Sent(a, Ban([Name(a)]));
    events := [join] + [ban];
    RunAppend(cfg, room, [join], [ban]);
    RunOne(cfg, room, join);
    JoinsEmpty(cfg, room, a);
    RunOne(cfg, Alone(a, room.banlist), ban);
    BansItself(cfg, room.banlist, a);
  }

  /** Every config admin among the first j that is somebody's name is banned. */
  ghost predicate AllBanned(cfg: Config, banlist: set<string>, j: nat)
    requires j <= |cfg.admins|
  {
    forall i :: 0 <= i < j && KeyOf(cfg.admins[i]) == Some(cfg.admins[i]) && ToLower(cfg.admins[i]) == cfg.admins[i] ==>
      cfg.admins[i] in banlist
  }

  lemma OneMoreBanned(cfg: Config, banlist: set<string>, j: nat) returns (events: seq<Event>, after: set<string>)
    requires j < |cfg.admins| && AllBanned(cfg, banlist, j)
    ensures Run(cfg, Room(map[], banlist), events) == Room(map[], after) && AllBanned(cfg, after, j + 1)
  {
    events, after := [], banlist;
    var h := cfg.admins[j];
    if KeyOf(h) == Some(h) && ToLower(h) == h && h !in banlist {
      var a := KeyIsName(h);
      assert ConfigRole(cfg, Name(a)) == RoleAdmin;
      events := SelfBan(cfg, Room(map[], banlist), a);
      after := banlist + {h};
    }
  }

  lemma {:induction false} AllBanThemselves(cfg: Config, banlist: set<string>, j: nat)
    returns (events: seq<Event>, after: set<string>)
    requires j <= |cfg.admins|
    ensures Run(cfg, Room(map[], banlist), events) == Room(map[], after) && AllBanned(cfg, after, j)
  {
    events, after := [], banlist;
    if j > 0 {
      var first, mid := AllBanThemselves(cfg, banlist, j - 1);
      var more;
      more, after := OneMoreBanned(cfg, mid, j - 1);
      RunAppend(cfg, Room(map[], banlist), first, more);
      events := first + more;
    }
  }

  /** With /ban: from every sound room, whatever the config, some run leaves no usable admin. */
  lemma NoRoomIsBanProof(cfg: Config, room: Room)
    requires Sound(cfg, room)
    ensures exists events :: !HasAdmin(cfg, Run(cfg, room, events))
  {
    var leave := EveryoneLeaves(cfg, room);
    var ban, after := AllBanThemselves(cfg, room.banlist, |cfg.admins|);
    RunAppend(cfg, room, leave, ban);
    forall a: Address ensures !(ConfigRole(cfg, Name(a)) == RoleAdmin && Name(a) !in after) { NameIsKey(a); }
    EmptyRoomAdmins(cfg, Room(map[], after));
    assert Run(cfg, room, leave + ban) == Room(map[], after);
  }

  /** One such run: a mod bans the only config admin. */
  lemma ModBansConfigAdmin(a: Address, m: Address)
    requires a != m
    ensures var cfg := Config([Name(a)], [Name(m)], 0);
      var room := Room(map[Name(a) := Member(Name(a), "", false, false, "")], {});
      Sound(cfg, room) && HasAdmin(cfg, room) && !HasAdmin(cfg, Run(cfg, room, [Sent(m, Ban([Name(a)]))]))
  {
    var cfg := Config([Name(a)], [Name(m)], 0);
    var room := Room(map[Name(a) := Member(Name(a), "", false, false, "")], {});
    var e := Sent(m, Ban([Name(a)]));
    NameIsKey(a);
    NameIsKey(m);
    NameInjective(a, m);
    UsableIff(cfg, room, a);
    OnlyMemberFound(room, a);
    EffectiveIsMax(cfg, room, Name(m));
    RunOne(cfg, room, e);
    forall b: Address | Usable(cfg, room, b) ensures Strips(cfg, room, e, b) {
      UsableIff(cfg, room, b);
      NameIsKey(b);
      NameInjective(a, b);
    }
    LastAdminLostIff(cfg, room, e);
  }

  /** Others: a lone runtime admin leaves, or a sweep takes it. */
  lemma LoneAdminGoes(cfg: Config, a: Address)
    requires forall h :: ConfigRole(cfg, h) != RoleAdmin
    ensures var room := Room(map[Name(a) := Member(Name(a), "", false, false, "admin")], {});
      && Filed(room) && HasAdmin(cfg, room)
      && !HasAdmin(cfg, Run(cfg, room, [Sent(a, Leave)])) && !HasAdmin(cfg, Run(cfg, room, [Sweep({Name(a)})]))
  {
    var room := Room(map[Name(a) := Member(Name(a), "", false, false, "admin")], {});
    NameIsKey(a);
    UsableIff(cfg, room, a);
    forall e | e in {Sent(a, Leave), Sweep({Name(a)})} ensures !HasAdmin(cfg, Run(cfg, room, [e])) {
      RunOne(cfg, room, e);
      forall b: Address | Usable(cfg, room, b) ensures Strips(cfg, room, e, b) {
        UsableIff(cfg, room, b);
        NameInjective(a, b);
      }
      LastAdminLostIff(cfg, room, e);
    }
  }

  // ---- what each event does to a member, a ban, a nickname ----

  /** The event is a command, and it is heard. */
  ghost predicate Heard(room: Room, e: Event) {
    e.Sent? && Name(e.source) !in room.banlist
  }

  ghost predicate HeardMod(cfg: Config, room: Room, e: Event) {
    Heard(room, e) && AtLeastMod(EffectiveRole(cfg, room, Name(e.source)))
  }

  /** The event puts the member out: it leaves, is swept, or a mod or admin kicks or bans it. */
  ghost predicate Removes(cfg: Config, room: Room, e: Event, h: string) {
    match e
    case Sweep(stale) => h in stale
    case Sent(source, Leave) => Heard(room, e) && Name(source) == h
    case Sent(_, Kick(args)) => HeardMod(cfg, room, e) && |args| == 1 && Aims(room, args[0], h)
    case Sent(_, Ban(args)) => HeardMod(cfg, room, e) && |args| == 1 && Aims(room, args[0], h)
    case Sent(_, _) => false
  }

  /** The event lets it in: a stranger that is heard joins a room with a place. */
  ghost predicate Admits(cfg: Config, room: Room, e: Event, h: string) {
    && Heard(room, e) && e.cmd.Join? && Name(e.source) == h && h !in room.users
    && (cfg.maxMembers == 0 || |room.users| < cfg.maxMembers)
  }

  /** Who is a member after an event. */
  lemma MemberAfterIff(cfg: Config, room: Room, e: Event, h: string)
    requires Filed(room)
    ensures h in Received(cfg, room, e).users <==>
      (h in room.users && !Removes(cfg, room, e, h)) || Admits(cfg, room, e, h)
  {
    if e.Sent? {
      match e.cmd
      case Nick(_) => NickKeepsMembers(cfg, room, e);
      case UserMode(_) => GrantKeepsMembers(cfg, room, e);
      case Kick(args) => AimedMembers(cfg, room, e, h, args);
      case Ban(args) => AimedMembers(cfg, room, e, h, args);
      case Join(_) => JoinMembers(cfg, room, e, h);
      case _ => NameIsKey(e.source);
    }
  }

  lemma AimedMembers(cfg: Config, room: Room, e: Event, h: string, args: seq<string>)
    requires Filed(room) && e.Sent? && (e.cmd == Kick(args) || e.cmd == Ban(args))
    ensures h in Received(cfg, room, e).users <==> h in room.users && !Removes(cfg, room, e, h)
  {
    if |args| == 1 && Target(room, args[0]).Some? { TargetIsFiled(room, args[0]); }
  }

  lemma JoinMembers(cfg: Config, room: Room, e: Event, h: string)
    requires e.Sent? && e.cmd.Join?
    ensures h in Received(cfg, room, e).users <==> h in room.users || Admits(cfg, room, e, h)
  {
    NameIsKey(e.source);
  }

  lemma NickKeepsMembers(cfg: Config, room: Room, e: Event)
    requires Filed(room) && e.Sent? && e.cmd.Nick?
    ensures Received(cfg, room, e).users.Keys == room.users.Keys
  {
    var args := e.cmd.args;
    if |args| == 2 && Target(room, args[0]).Some? { TargetIsFiled(room, args[0]); }
  }

  lemma GrantKeepsMembers(cfg: Config, room: Room, e: Event)
    requires Filed(room) && e.Sent? && e.cmd.UserMode?
    ensures Received(cfg, room, e).users.Keys == room.users.Keys
  {
    var args := e.cmd.args;
    if |args| == 2 && Target(room, args[1]).Some? { TargetIsFiled(room, args[1]); }
  }

  /** The event lifts the ban: a mod or admin names it, or gives a prefix that no ban is and only this one has. */
  ghost predicate Lifts(cfg: Config, room: Room, e: Event, h: string) {
    && HeardMod(cfg, room, e) && e.cmd.Unban? && |e.cmd.args| == 1
    && var q := ToLower(e.cmd.args[0]);
       q == h || (q !in room.banlist && HasPrefix(h, q) && forall x :: x in room.banlist && HasPrefix(x, q) ==> x == h)
  }

  /** Who is banned after an event. */
  lemma BannedAfterIff(cfg: Config, room: Room, e: Event, h: string)
    requires Filed(room)
    ensures h in Received(cfg, room, e).banlist <==>
      || (h in room.banlist && !Lifts(cfg, room, e, h))
      || (HeardMod(cfg, room, e) && e.cmd.Ban? && |e.cmd.args| == 1 && Aims(room, e.cmd.args[0], h))
  {
    if e.Sent? {
      match e.cmd
      case Ban(args) => if |args| == 1 && Target(room, args[0]).Some? { TargetIsFiled(room, args[0]); }
      case Unban(args) => if |args| == 1 && h in room.banlist { UnbanLifts(cfg, room, e, h); }
      case _ =>
    }
  }

  lemma UnbanLifts(cfg: Config, room: Room, e: Event, h: string)
    requires Filed(room) && e.Sent? && e.cmd.Unban? && |e.cmd.args| == 1 && h in room.banlist
    ensures h in Received(cfg, room, e).banlist <==> !Lifts(cfg, room, e, h)
  {
    var q, c := ToLower(e.cmd.args[0]), DeriveCaller(cfg, room, Name(e.source));
    var found := set x | x in room.banlist && HasPrefix(x, q);
    SoleIff(found, h);
    if HeardMod(cfg, room, e) {
      var after := Unbanned(room, c, e.cmd.args);
      assert Received(cfg, room, e) == after;
      if q !in room.banlist && Sole(found).Some? {
        var x := Sole(found).value;
        assert x in found && ToLower(x) == x && HasPrefix(x, q);
        assert forall y :: y in room.banlist && HasPrefix(y, q) ==> y in found;
        assert after.banlist == room.banlist - {x};
        SoleIff(found, x);
      }
    }
  }

  /** The nickname a heard event gives a member: its own choice, or a mod's for another. */
  ghost function NewNick(cfg: Config, room: Room, e: Event, h: string): Option<string> {
    if !Heard(room, e) || !e.cmd.Nick? then None
    else
      var args := e.cmd.args;
      if |args| == 1 && Name(e.source) == h && NickOk(args[0]) then Some(args[0])
      else if |args| == 2 && HeardMod(cfg, room, e) && NickOk(args[1]) && Aims(room, args[0], h) then Some(args[1])
      else None
  }

  /** The grant a heard /usermode gives. */
  ghost function NewGrant(cfg: Config, room: Room, e: Event, h: string): Option<string> {
    if Heard(room, e) && e.cmd.UserMode?
       && SetsGrant(cfg, room, DeriveCaller(cfg, room, Name(e.source)), e.cmd.args, h)
    then Some(Stored(ToLower(e.cmd.args[0])))
    else None
  }

  function Else<T>(o: Option<T>, d: T): T { match o case Some(x) => x case None => d }

  /** What a member that stays is filed as after an event: a nickname or a grant it was given, a flag it set for
      itself, and everything else as it was. */
  lemma EntryAfter(cfg: Config, room: Room, e: Event, h: string)
    requires Filed(room) && h in room.users && h in Received(cfg, room, e).users
    ensures var m := room.users[h]; var own := Heard(room, e) && Name(e.source) == h;
      Received(cfg, room, e).users[h] == Member(
        m.hash, Else(NewNick(cfg, room, e, h), m.nickname),
        if own && e.cmd.SetPaused? then e.cmd.on else m.paused,
        if own && e.cmd.SetTextOnly? then e.cmd.on else m.textOnly,
        Else(NewGrant(cfg, room, e, h), m.role))
  {
    if e.Sent? {
      match e.cmd
      case Nick(_) => NickEntry(cfg, room, e, h);
      case UserMode(_) => GrantEntry(cfg, room, e, h);
      case _ => NameIsKey(e.source);
    }
  }

  lemma NickEntry(cfg: Config, room: Room, e: Event, h: string)
    requires Filed(room) && h in room.users && e.Sent? && e.cmd.Nick?
    ensures var m := room.users[h];
      && h in Received(cfg, room, e).users
      && Received(cfg, room, e).users[h] == m.(nickname := Else(NewNick(cfg, room, e, h), m.nickname))
  {
    NameIsKey(e.source);
    var args := e.cmd.args;
    if |args| == 2 && Target(room, args[0]).Some? { TargetIsFiled(room, args[0]); }
  }

  lemma GrantEntry(cfg: Config, room: Room, e: Event, h: string)
    requires Filed(room) && h in room.users && e.Sent? && e.cmd.UserMode?
    ensures var m := room.users[h];
      && h in Received(cfg, room, e).users
      && Received(cfg, room, e).users[h] == m.(role := Else(NewGrant(cfg, room, e, h), m.role))
  {
    var c, args := DeriveCaller(cfg, room, Name(e.source)), e.cmd.args;
    if SetsGrant(cfg, room, c, args, h) {
      GrantSet(cfg, room, c, args, h);
    } else {
      GrantNotSet(cfg, room, c, args, h);
    }
  }

  /** A newcomer is filed under its hash with the announced name, unmuted and without a grant. */
  lemma NewcomerAfter(cfg: Config, room: Room, e: Event, h: string)
    requires Filed(room) && Admits(cfg, room, e, h)
    ensures Received(cfg, room, e).users == room.users[h := Member(h, e.cmd.announced, false, false, "")]
  {
    NameIsKey(e.source);
  }
}
