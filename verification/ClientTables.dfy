/** The NFSv4 client records and the four hash tables that index them, sections 14.2.33 and
    14.2.34 of RFC 3530 and section 18.35 of RFC 5661 (fs/nfsd/nfs4state.c:121-132, 398-432,
    1119-1166, 1248-1264, 1334-1413, 1557-1687, 1754-1844, 2097-2132, 2173-2291). */
module ClientTables {
  import opened Common

  // ---- data ----

  const WORD: int := 0x1_0000_0000

  type U32 = x: int | 0 <= x < WORD
  type Byte = x: int | 0 <= x < 256

  const HASH_SIZE := 16

  /** The directory name derived from a client's own name; only its first 8 bytes are hashed. */
  type Name = s: seq<Byte> | |s| >= 8 witness [0, 0, 0, 0, 0, 0, 0, 0]

  datatype ClientId = ClientId(boot: U32, id: U32)

  /** What same_creds compares. */
  datatype Cred = Cred(gss: bool, uid: nat, gid: nat, groups: seq<nat>, principal: Option<string>)

  datatype Confirm = Confirm(seconds: nat, counter: U32)

  /** The parts of struct nfs4_client that never change; `serial` stands for its address, and
      counts creations. */
  datatype Client = Client(serial: nat, clid: ClientId, name: Name, verifier: nat, cred: Cred, addr: nat,
      confirm: Confirm)

  /** The parts that do: whether EXCHANGE_ID has seen it, whether it holds opens, delegations or
      sessions, and the sequence id of its last CREATE_SESSION. */
  datatype Live = Live(exchanged: bool, hasState: bool, csSeqid: U32)

  const FRESH := Live(false, false, 0)

  /** Every hashed client, newest first, in the order its table entries have. */
  datatype Registry = Registry(boot: U32, nextId: U32, nextConfirm: U32, nextSerial: nat,
                               confirmed: seq<Client>, unconfirmed: seq<Client>, live: map<nat, Live>)
  {
    function Of(c: Client): Live {
      if c.serial in live then live[c.serial] else FRESH
    }
  }

  // ---- looking up ----

  datatype Key = ById(clid: ClientId) | ByName(name: Name)

  predicate Hit(c: Client, k: Key) {
    match k case ById(clid) => c.clid == clid case ByName(name) => c.name == name
  }

  /** opaque_hashval. */
  function OpaqueHash(s: seq<Byte>): U32 {
    if s == [] then 0 else (OpaqueHash(s[..|s|-1]) * 37 + s[|s|-1]) % WORD
  }

  /** clientid_hashval, clientstr_hashval. */
  function HashOf(k: Key): nat
    ensures HashOf(k) < HASH_SIZE
  {
    match k case ById(clid) => clid.id % HASH_SIZE case ByName(name) => OpaqueHash(name[..8]) % HASH_SIZE
  }

  /** The key under which a client is filed in an id table or a name table. */
  function KeyOf(c: Client, byId: bool): Key {
    if byId then ById(c.clid) else ByName(c.name)
  }

  /** The first hit of a scan. */
  function First(l: seq<Client>, k: Key): (r: Option<Client>)
    ensures r.Some? ==> r.value in l && Hit(r.value, k)
    ensures r.None? ==> forall c <- l :: !Hit(c, k)
  {
    if l == [] then None else if Hit(l[0], k) then Some(l[0]) else First(l[1..], k)
  }

  /** Chain b of the table that files list l. */
  function Chain(l: seq<Client>, byId: bool, b: nat): seq<Client> {
    if l == [] then []
    else if HashOf(KeyOf(l[0], byId)) == b then [l[0]] + Chain(l[1..], byId, b)
    else Chain(l[1..], byId, b)
  }

  /** Looking only in the chain a key hashes to finds what a scan of every client would. */
  lemma {:induction false} ChainLookupIsScan(l: seq<Client>, k: Key)
    ensures First(Chain(l, k.ById?, HashOf(k)), k) == First(l, k)
  {
    if l != [] {
      ChainLookupIsScan(l[1..], k);
      var rest := Chain(l[1..], k.ById?, HashOf(k));
      assert ([l[0]] + rest)[1..] == rest;
    }
  }

  /** list_del. */
  function Without(l: seq<Client>, c: Client): seq<Client> {
    if l == [] then [] else if l[0] == c then l[1..] else [l[0]] + Without(l[1..], c)
  }

  lemma {:induction false} ChainWithout(l: seq<Client>, c: Client, byId: bool, b: nat)
    ensures Chain(Without(l, c), byId, b) ==
      if HashOf(KeyOf(c, byId)) == b then Without(Chain(l, byId, b), c) else Chain(l, byId, b)
  {
    if l != [] && l[0] != c {
      ChainWithout(l[1..], c, byId, b);
      var rest := Without(l[1..], c);
      assert ([l[0]] + rest)[1..] == rest;
      var tail := Chain(l[1..], byId, b);
      assert ([l[0]] + tail)[1..] == tail;
    } else if l != [] {
      var tail := Chain(l[1..], byId, b);
      assert ([l[0]] + tail)[1..] == tail;
    }
  }

  lemma ChainCons(l: seq<Client>, c: Client, byId: bool, b: nat)
    ensures Chain([c] + l, byId, b) == if HashOf(KeyOf(c, byId)) == b then [c] + Chain(l, byId, b)
      else Chain(l, byId, b)
  {
    assert ([c] + l)[1..] == l;
  }

  // ---- operations ----

  datatype Status = Ok | Inval | ServerFault | Perm | NotSame | NoEnt | ClidInUse | Jukebox | StaleClientid
                  | SeqMisordered | Replayed | TooSmall | ClientidBusy

  /** Who is asking: the name and verifier a client presents, its credential and its address. */
  datatype Caller = Caller(name: Name, verifier: nat, cred: Cred, addr: nat)

  /** create_client; the clientid comes from gen_clid or copy_clid. */
  function NewClient(reg: Registry, who: Caller, clid: ClientId, now: nat): Client {
    Client(reg.nextSerial, clid, who.name, who.verifier, who.cred, who.addr, Confirm(now, reg.nextConfirm))
  }

  function GenClid(reg: Registry): ClientId {
    ClientId(reg.boot, reg.nextId)
  }

  /** add_to_unconfirmed of a new client. */
  function Enter(reg: Registry, c: Client, live: Live, generated: bool): Registry {
    reg.(nextId := if generated then (reg.nextId + 1) % WORD else reg.nextId,
         nextConfirm := (reg.nextConfirm + 1) % WORD,
         nextSerial := reg.nextSerial + 1,
         unconfirmed := [c] + reg.unconfirmed,
         live := reg.live[c.serial := live])
  }

  /** move_to_confirmed. */
  function MoveToConfirmed(reg: Registry, c: Client): Registry {
    reg.(unconfirmed := Without(reg.unconfirmed, c), confirmed := [c] + reg.confirmed)
  }

  /** expire_client. */
  function ExpireConfirmed(reg: Registry, c: Client): Registry {
    reg.(confirmed := Without(reg.confirmed, c))
  }

  function ExpireUnconfirmed(reg: Registry, c: Client): Registry {
    reg.(unconfirmed := Without(reg.unconfirmed, c))
  }

  function DropUnconfirmed(reg: Registry, name: Name): Registry {
    match First(reg.unconfirmed, ByName(name)) case Some(u) => ExpireUnconfirmed(reg, u) case None => reg
  }

  /** nfsd4_setclientid; on success also the new record. */
  function SetClientid(reg: Registry, who: Caller, now: nat, createOk: bool): (Registry, Status, Option<Client>) {
    var conf := First(reg.confirmed, ByName(who.name));
    if conf.Some? && (reg.Of(conf.value).exchanged || conf.value.cred != who.cred) then (reg, ClidInUse, None)
    else
      var r := DropUnconfirmed(reg, who.name);
      if !createOk then (r, Jukebox, None)
      else
        var same := conf.Some? && conf.value.verifier == who.verifier;
        var c := NewClient(r, who, if same then conf.value.clid else GenClid(r), now);
        (Enter(r, c, FRESH, !same), Ok, Some(c))
  }

  /** Confirming u replaces the confirmed record of its name, if there is one. */
  function Promote(reg: Registry, u: Client): Registry {
    var prior := First(reg.confirmed, ByName(u.name));
    MoveToConfirmed(if prior.Some? then ExpireConfirmed(reg, prior.value) else reg, u)
  }

  /** nfsd4_setclientid_confirm. */
  function SetClientidConfirm(reg: Registry, clid: ClientId, confirm: Confirm, cred: Cred): (Registry, Status) {
    if clid.boot != reg.boot then (reg, StaleClientid)
    else
      var conf := First(reg.confirmed, ById(clid));
      var unconf := First(reg.unconfirmed, ById(clid));
      if unconf.Some? && unconf.value.cred != cred then (reg, ServerFault)
      else if conf.Some? && conf.value.cred != cred then (reg, ServerFault)
      else if unconf.None? || confirm != unconf.value.confirm then
        (reg, if conf.Some? && unconf.None? then Ok else StaleClientid)
      else if conf.Some? then (ExpireUnconfirmed(reg, unconf.value), Ok)
      else (Promote(reg, unconf.value), Ok)
  }

  /** What EXCHANGE_ID asks besides who it is: an update, flags outside the mask, state protection. */
  datatype ExidArgs = ExidArgs(update: bool, badFlags: bool, protect: bool)

  function MarkExchanged(reg: Registry, c: Client): Registry {
    reg.(live := reg.live[c.serial := reg.Of(c).(exchanged := true)])
  }

  function EnterExchanged(reg: Registry, who: Caller, now: nat, createOk: bool): (Registry, Status, Option<Client>) {
    if !createOk then (reg, Jukebox, None)
    else
      var c := NewClient(reg, who, GenClid(reg), now);
      (Enter(reg, c, FRESH.(exchanged := true), true), Ok, Some(c))
  }

  /** nfsd4_exchange_id; case numbers of section 18.35.4 of RFC 5661. */
  function ExchangeId(reg: Registry, who: Caller, args: ExidArgs, now: nat, createOk: bool)
      : (Registry, Status, Option<Client>) {
    if args.badFlags then (reg, Inval, None)
    else if args.protect then (reg, ServerFault, None)
    else
      match First(reg.confirmed, ByName(who.name))
      case Some(conf) =>
        if args.update then
          if !reg.Of(conf).exchanged then (reg, Inval, None)
          else if conf.cred != who.cred then (reg, Perm, None) // case 9
          else if conf.verifier != who.verifier then (reg, NotSame, None) // case 8
          else (MarkExchanged(reg, conf), Ok, Some(conf)) // case 6
        else if conf.cred != who.cred then // case 3
          if reg.Of(conf).hasState then (reg, ClidInUse, None)
          else EnterExchanged(ExpireConfirmed(reg, conf), who, now, createOk)
        else if conf.verifier == who.verifier then (MarkExchanged(reg, conf), Ok, Some(conf)) // case 2
        else EnterExchanged(reg, who, now, createOk) // case 5
      case None =>
        if args.update then (reg, NoEnt, None) // case 7
        else EnterExchanged(DropUnconfirmed(reg, who.name), who, now, createOk) // cases 1 and 4
  }

  /** CREATE_SESSION: bad flags, attributes too small, and whether a session can be had. */
  datatype SessionArgs = SessionArgs(badFlags: bool, tooSmall: bool, sessionOk: bool)

  function AddSession(reg: Registry, c: Client): Registry {
    reg.(live := reg.live[c.serial := reg.Of(c).(hasState := true, csSeqid := (reg.Of(c).csSeqid + 1) % WORD)])
  }

  /** nfsd4_create_session. */
  function CreateSession(reg: Registry, clid: ClientId, seqid: U32, cred: Cred, addr: nat, args: SessionArgs)
      : (Registry, Status) {
    var conf := First(reg.confirmed, ById(clid));
    var unconf := First(reg.unconfirmed, ById(clid));
    if args.badFlags then (reg, Inval)
    else if conf.Some? then
      var last := reg.Of(conf.value).csSeqid;
      if seqid != (last + 1) % WORD then (reg, if seqid == last then Replayed else SeqMisordered)
      else if args.tooSmall then (reg, TooSmall)
      else if !args.sessionOk then (reg, Jukebox)
      else (AddSession(reg, conf.value), Ok)
    else if unconf.Some? then
      if unconf.value.cred != cred || unconf.value.addr != addr then (reg, ClidInUse)
      else if seqid != (reg.Of(unconf.value).csSeqid + 1) % WORD then (reg, SeqMisordered)
      else if args.tooSmall then (reg, TooSmall)
      else if !args.sessionOk then (reg, Jukebox)
      else (Promote(AddSession(reg, unconf.value), unconf.value), Ok)
    else (reg, StaleClientid)
  }

  /** nfsd4_destroy_clientid; `current` is the client of the compound's own session. */
  function DestroyClientid(reg: Registry, clid: ClientId, current: Option<Client>): (Registry, Status) {
    var conf := First(reg.confirmed, ById(clid));
    var unconf := First(reg.unconfirmed, ById(clid));
    if conf.Some? then
      if reg.Of(conf.value).hasState || current == conf then (reg, ClientidBusy)
      else (ExpireConfirmed(reg, conf.value), Ok)
    else if unconf.Some? then (ExpireUnconfirmed(reg, unconf.value), Ok)
    else (reg, StaleClientid)
  }

  datatype Op =
    | OpSetClientid(who: Caller, now: nat, createOk: bool)
    | OpSetClientidConfirm(clid: ClientId, confirm: Confirm, cred: Cred)
    | OpExchangeId(who: Caller, args: ExidArgs, now: nat, createOk: bool)
    | OpCreateSession(clid: ClientId, seqid: U32, cred: Cred, addr: nat, sessionArgs: SessionArgs)
    | OpDestroyClientid(clid: ClientId, current: Option<Client>)
    | OpStateChange(c: Client, hasState: bool)
    | OpLeaseExpiry(c: Client)

  function Step(reg: Registry, op: Op): Registry {
    match op
    case OpSetClientid(who, now, createOk) => SetClientid(reg, who, now, createOk).0
    case OpSetClientidConfirm(clid, confirm, cred) => SetClientidConfirm(reg, clid, confirm, cred).0
    case OpExchangeId(who, args, now, createOk) => ExchangeId(reg, who, args, now, createOk).0
    case OpCreateSession(clid, seqid, cred, addr, args) => CreateSession(reg, clid, seqid, cred, addr, args).0
    case OpDestroyClientid(clid, current) => DestroyClientid(reg, clid, current).0
    case OpStateChange(c, hasState) =>
      if c in reg.confirmed then reg.(live := reg.live[c.serial := reg.Of(c).(hasState := hasState)]) else reg
    case OpLeaseExpiry(c) =>
      if c in reg.confirmed then ExpireConfirmed(reg, c) else ExpireUnconfirmed(reg, c)
  }

  // ---- the invariant ----

  predicate NoDup(l: seq<Client>) {
    forall i, j :: 0 <= i < j < |l| ==> l[i] != l[j]
  }

  ghost predicate Inv(reg: Registry) {
    && NoDup(reg.confirmed) && NoDup(reg.unconfirmed)
    && (forall c <- reg.confirmed :: c.serial < reg.nextSerial)
    && (forall c <- reg.unconfirmed :: c.serial < reg.nextSerial)
    && (forall c <- reg.confirmed + reg.unconfirmed :: c.clid.boot == reg.boot)
    && (forall c <- reg.confirmed, d <- reg.unconfirmed :: c.serial != d.serial)
    && (forall c <- reg.confirmed, d <- reg.confirmed ::
          c.serial == d.serial || c.name == d.name || c.clid == d.clid ==> c == d)
    && (forall c <- reg.unconfirmed, d <- reg.unconfirmed :: c.serial == d.serial ==> c == d)
  }

  lemma {:induction false} WithoutMembers(l: seq<Client>, c: Client)
    requires NoDup(l)
    ensures NoDup(Without(l, c))
    ensures forall d :: d in Without(l, c) <==> d in l && d != c
  {
    if l != [] {
      assert NoDup(l[1..]);
      WithoutMembers(l[1..], c);
      if l[0] == c {
        assert forall d :: d in l[1..] ==> d != c;
      } else {
        var w := Without(l[1..], c);
        assert l[0] !in l[1..];
        assert Without(l, c) == [l[0]] + w;
        forall d ensures d in [l[0]] + w <==> d in l && d != c {
          assert d in l <==> d == l[0] || d in l[1..];
        }
      }
    }
  }

  lemma EnterKeeps(reg: Registry, c: Client, live: Live, generated: bool)
    requires Inv(reg) && c.serial == reg.nextSerial && c.clid.boot == reg.boot
    ensures Inv(Enter(reg, c, live, generated))
  {
  }

  lemma ExpireConfirmedKeeps(reg: Registry, c: Client)
    requires Inv(reg)
    ensures Inv(ExpireConfirmed(reg, c))
  {
    WithoutMembers(reg.confirmed, c);
  }

  lemma ExpireUnconfirmedKeeps(reg: Registry, c: Client)
    requires Inv(reg)
    ensures Inv(ExpireUnconfirmed(reg, c))
  {
    WithoutMembers(reg.unconfirmed, c);
  }

  lemma PromoteKeeps(reg: Registry, u: Client)
    requires Inv(reg) && u in reg.unconfirmed && First(reg.confirmed, ById(u.clid)).None?
    ensures Inv(Promote(reg, u))
  {
    WithoutMembers(reg.unconfirmed, u);
    var prior := First(reg.confirmed, ByName(u.name));
    if prior.Some? { WithoutMembers(reg.confirmed, prior.value); }
  }

  lemma DropUnconfirmedKeeps(reg: Registry, name: Name)
    requires Inv(reg)
    ensures Inv(DropUnconfirmed(reg, name))
  {
    var u := First(reg.unconfirmed, ByName(name));
    if u.Some? { ExpireUnconfirmedKeeps(reg, u.value); }
  }

  /** Only `live` changes. */
  lemma LiveKeeps(reg: Registry, live: map<nat, Live>)
    requires Inv(reg)
    ensures Inv(reg.(live := live))
  {
  }

  lemma SetClientidKeeps(reg: Registry, who: Caller, now: nat, createOk: bool)
    requires Inv(reg)
    ensures Inv(SetClientid(reg, who, now, createOk).0)
  {
    var conf := First(reg.confirmed, ByName(who.name));
    var r := DropUnconfirmed(reg, who.name);
    DropUnconfirmedKeeps(reg, who.name);
    var same := conf.Some? && conf.value.verifier == who.verifier;
    var c := NewClient(r, who, if same then conf.value.clid else GenClid(r), now);
    if conf.Some? { assert conf.value in reg.confirmed + reg.unconfirmed; }
    EnterKeeps(r, c, FRESH, !same);
  }

  lemma ExchangeIdKeeps(reg: Registry, who: Caller, args: ExidArgs, now: nat, createOk: bool)
    requires Inv(reg)
    ensures Inv(ExchangeId(reg, who, args, now, createOk).0)
  {
    var conf := First(reg.confirmed, ByName(who.name));
    if args.badFlags || args.protect {
    } else if conf.None? {
      if !args.update { EnterAfterDropKeeps(reg, who, now, createOk); }
    } else if args.update || (conf.value.cred == who.cred && conf.value.verifier == who.verifier) {
      LiveKeeps(reg, MarkExchanged(reg, conf.value).live);
    } else if conf.value.cred == who.cred {
      EnterExchangedKeeps(reg, who, now, createOk);
    } else {
      EnterAfterExpiryKeeps(reg, conf.value, who, now, createOk);
    }
  }

  lemma EnterAfterDropKeeps(reg: Registry, who: Caller, now: nat, createOk: bool)
    requires Inv(reg)
    ensures Inv(EnterExchanged(DropUnconfirmed(reg, who.name), who, now, createOk).0)
  {
    DropUnconfirmedKeeps(reg, who.name);
    EnterExchangedKeeps(DropUnconfirmed(reg, who.name), who, now, createOk);
  }

  lemma EnterAfterExpiryKeeps(reg: Registry, c: Client, who: Caller, now: nat, createOk: bool)
    requires Inv(reg)
    ensures Inv(EnterExchanged(ExpireConfirmed(reg, c), who, now, createOk).0)
  {
    ExpireConfirmedKeeps(reg, c);
    EnterExchangedKeeps(ExpireConfirmed(reg, c), who, now, createOk);
  }

  lemma EnterExchangedKeeps(reg: Registry, who: Caller, now: nat, createOk: bool)
    requires Inv(reg)
    ensures Inv(EnterExchanged(reg, who, now, createOk).0)
  {
    EnterKeeps(reg, NewClient(reg, who, GenClid(reg), now), FRESH.(exchanged := true), true);
  }

  lemma CreateSessionKeeps(reg: Registry, clid: ClientId, seqid: U32, cred: Cred, addr: nat, args: SessionArgs)
    requires Inv(reg)
    ensures Inv(CreateSession(reg, clid, seqid, cred, addr, args).0)
  {
    var conf := First(reg.confirmed, ById(clid));
    var unconf := First(reg.unconfirmed, ById(clid));
    if CreateSession(reg, clid, seqid, cred, addr, args).1 == Ok {
      if conf.Some? {
        LiveKeeps(reg, AddSession(reg, conf.value).live);
      } else {
        PromoteWithSessionKeeps(reg, unconf.value);
      }
    }
  }

  lemma PromoteWithSessionKeeps(reg: Registry, u: Client)
    requires Inv(reg) && u in reg.unconfirmed && First(reg.confirmed, ById(u.clid)).None?
    ensures Inv(Promote(AddSession(reg, u), u))
  {
    PromoteKeeps(reg, u);
    var r := Promote(AddSession(reg, u), u);
    assert r == Promote(reg, u).(live := r.live);
    LiveKeeps(Promote(reg, u), r.live);
  }

  lemma SetClientidConfirmKeeps(reg: Registry, clid: ClientId, confirm: Confirm, cred: Cred)
    requires Inv(reg)
    ensures Inv(SetClientidConfirm(reg, clid, confirm, cred).0)
  {
    var conf := First(reg.confirmed, ById(clid));
    var unconf := First(reg.unconfirmed, ById(clid));
    if SetClientidConfirm(reg, clid, confirm, cred).1 == Ok && unconf.Some? {
      if conf.Some? {
        ExpireUnconfirmedKeeps(reg, unconf.value);
      } else {
        PromoteKeeps(reg, unconf.value);
      }
    }
  }

  lemma DestroyClientidKeeps(reg: Registry, clid: ClientId, current: Option<Client>)
    requires Inv(reg)
    ensures Inv(DestroyClientid(reg, clid, current).0)
  {
    var conf := First(reg.confirmed, ById(clid));
    var unconf := First(reg.unconfirmed, ById(clid));
    if conf.Some? {
      ExpireConfirmedKeeps(reg, conf.value);
    } else if unconf.Some? {
      ExpireUnconfirmedKeeps(reg, unconf.value);
    }
  }

  lemma ExpiryKeeps(reg: Registry, op: Op)
    requires Inv(reg) && op.OpLeaseExpiry?
    ensures Inv(Step(reg, op))
  {
    if op.c in reg.confirmed { ExpireConfirmedKeeps(reg, op.c); } else { ExpireUnconfirmedKeeps(reg, op.c); }
  }

  /** The requests that establish a client. */
  lemma EstablishingKeeps(reg: Registry, op: Op)
    requires Inv(reg) && (op.OpSetClientid? || op.OpExchangeId?)
    ensures Inv(Step(reg, op))
  {
    if op.OpSetClientid? {
      SetClientidKeeps(reg, op.who, op.now, op.createOk);
    } else {
      ExchangeIdKeeps(reg, op.who, op.args, op.now, op.createOk);
    }
  }

  /** The requests that confirm one. */
  lemma ConfirmingKeeps(reg: Registry, op: Op)
    requires Inv(reg) && (op.OpSetClientidConfirm? || op.OpCreateSession?)
    ensures Inv(Step(reg, op))
  {
    if op.OpSetClientidConfirm? {
      SetClientidConfirmKeeps(reg, op.clid, op.confirm, op.cred);
    } else {
      CreateSessionKeeps(reg, op.clid, op.seqid, op.cred, op.addr, op.sessionArgs);
    }
  }

  lemma StateChangeKeeps(reg: Registry, op: Op)
    requires Inv(reg) && op.OpStateChange?
    ensures Inv(Step(reg, op))
  {
    LiveKeeps(reg, reg.live[op.c.serial := reg.Of(op.c).(hasState := op.hasState)]);
  }

  lemma StepKeeps(reg: Registry, op: Op)
    requires Inv(reg)
    ensures Inv(Step(reg, op))
  {
    if op.OpSetClientid? || op.OpExchangeId? {
      EstablishingKeeps(reg, op);
    } else if op.OpSetClientidConfirm? || op.OpCreateSession? {
      ConfirmingKeeps(reg, op);
    } else if op.OpDestroyClientid? {
      DestroyClientidKeeps(reg, op.clid, op.current);
    } else if op.OpStateChange? {
      StateChangeKeeps(reg, op);
    } else {
      ExpiryKeeps(reg, op);
    }
  }

  // ---- all runs ----

  function Empty(boot: U32, nextId: U32, nextConfirm: U32): Registry {
    Registry(boot, nextId, nextConfirm, 0, [], [], map[])
  }

  function Run(reg: Registry, ops: seq<Op>): Registry
    decreases |ops|
  {
    if ops == [] then reg else Run(Step(reg, ops[0]), ops[1..])
  }

  lemma {:induction false} RunKeeps(reg: Registry, ops: seq<Op>)
    requires Inv(reg)
    ensures Inv(Run(reg, ops))
    decreases |ops|
  {
    if ops != [] {
      StepKeeps(reg, ops[0]);
      RunKeeps(Step(reg, ops[0]), ops[1..]);
    }
  }

  /** In every reachable state at most one confirmed client has a given name, at most one a given
      clientid, and no record is both confirmed and unconfirmed. */
  lemma ConfirmedOncePerNameAndId(start: Registry, ops: seq<Op>, c: Client, d: Client)
    requires start == Empty(start.boot, start.nextId, start.nextConfirm)
    requires c in Run(start, ops).confirmed
    ensures d in Run(start, ops).confirmed && (d.name == c.name || d.clid == c.clid) ==> d == c
    ensures c !in Run(start, ops).unconfirmed
  {
    RunKeeps(start, ops);
  }

  // ---- who may take a confirmed client's state away ----

  /** Operation op confirms record u. */
  ghost predicate Confirms(reg: Registry, op: Op, u: Client) {
    && (op.OpSetClientidConfirm? || op.OpCreateSession?)
    && u in reg.unconfirmed && u in Step(reg, op).confirmed
  }

  /** SETCLIENTID, EXCHANGE_ID and DESTROY_CLIENTID leave a confirmed client that holds state
      where it is, state included. */
  lemma StateSurvivesRequests(reg: Registry, op: Op, c: Client)
    requires Inv(reg) && c in reg.confirmed && reg.Of(c).hasState
    requires op.OpSetClientid? || op.OpExchangeId? || op.OpDestroyClientid?
    ensures c in Step(reg, op).confirmed && Step(reg, op).Of(c).hasState
  {
    match op
    case OpSetClientid(who, now, createOk) =>
    case OpExchangeId(who, args, now, createOk) =>
      var conf := First(reg.confirmed, ByName(who.name));
      if conf.Some? { WithoutMembers(reg.confirmed, conf.value); }
    case OpDestroyClientid(clid, current) =>
      var conf := First(reg.confirmed, ById(clid));
      if conf.Some? { WithoutMembers(reg.confirmed, conf.value); }
  }

  /** So such a client goes away only with its lease, or when another record of its name is
      confirmed. */
  lemma StateLostOnlyToSameName(reg: Registry, op: Op, c: Client) returns (u: Client)
    requires Inv(reg) && c in reg.confirmed && reg.Of(c).hasState && c !in Step(reg, op).confirmed
    ensures op != OpLeaseExpiry(c) ==> Confirms(reg, op, u) && u.name == c.name
  {
    u := c;
    match op
    case OpSetClientid(_, _, _) => StateSurvivesRequests(reg, op, c);
    case OpExchangeId(_, _, _, _) => StateSurvivesRequests(reg, op, c);
    case OpDestroyClientid(_, _) => StateSurvivesRequests(reg, op, c);
    case OpSetClientidConfirm(clid, confirm, cred) =>
      u := First(reg.unconfirmed, ById(clid)).value;
      PromoteReplaces(reg, u, c);
    case OpCreateSession(clid, seqid, cred, addr, args) =>
      u := First(reg.unconfirmed, ById(clid)).value;
      PromoteReplaces(AddSession(reg, u), u, c);
    case OpStateChange(_, _) =>
    case OpLeaseExpiry(d) => if d in reg.confirmed { WithoutMembers(reg.confirmed, d); }
  }

  lemma PromoteReplaces(reg: Registry, u: Client, c: Client)
    requires Inv(reg) && u in reg.unconfirmed && c in reg.confirmed && c !in Promote(reg, u).confirmed
    ensures u.name == c.name && u in Promote(reg, u).confirmed
  {
    var prior := First(reg.confirmed, ByName(u.name));
    if prior.Some? { WithoutMembers(reg.confirmed, prior.value); }
  }

  // ---- is the record that takes over the newer one? ----

  /** At most one unconfirmed record has name n, and it is newer than the confirmed one. */
  ghost predicate Orderly(reg: Registry, n: Name) {
    && (forall u <- reg.unconfirmed, v <- reg.unconfirmed :: u.name == n && v.name == n ==> u == v)
    && (forall u <- reg.unconfirmed, c <- reg.confirmed :: u.name == n && c.name == n ==> u.serial > c.serial)
  }

  /** Cases 3 and 5 of EXCHANGE_ID do not look for an unconfirmed record to replace. */
  predicate Stacks(reg: Registry, op: Op) {
    && op.OpExchangeId? && !op.args.badFlags && !op.args.protect && !op.args.update && op.createOk
    && First(reg.unconfirmed, ByName(op.who.name)).Some?
    && var conf := First(reg.confirmed, ByName(op.who.name));
      && conf.Some?
      && (if conf.value.cred != op.who.cred then !reg.Of(conf.value).hasState
        else conf.value.verifier != op.who.verifier)
  }

  lemma DropUnconfirmedMembers(reg: Registry, name: Name)
    requires Inv(reg) && Orderly(reg, name)
    ensures forall u <- DropUnconfirmed(reg, name).unconfirmed :: u in reg.unconfirmed && u.name != name
  {
    var u := First(reg.unconfirmed, ByName(name));
    if u.Some? { WithoutMembers(reg.unconfirmed, u.value); }
  }

  lemma EnterOrderly(reg: Registry, c: Client, live: Live, generated: bool, n: Name)
    requires Inv(reg) && Orderly(reg, n) && c.serial == reg.nextSerial
    ensures Orderly(Enter(reg, c, live, generated), n) <==>
      !(c.name == n && First(reg.unconfirmed, ByName(n)).Some?)
  {
    var r := Enter(reg, c, live, generated);
    assert c in r.unconfirmed;
    var u := First(reg.unconfirmed, ByName(c.name));
    if u.Some? {
      assert u.value in r.unconfirmed;
    }
  }

  lemma PromoteOrderly(reg: Registry, u: Client, n: Name)
    requires Inv(reg) && Orderly(reg, n) && u in reg.unconfirmed
    ensures Orderly(Promote(reg, u), n)
  {
    WithoutMembers(reg.unconfirmed, u);
    var prior := First(reg.confirmed, ByName(u.name));
    if prior.Some? { WithoutMembers(reg.confirmed, prior.value); }
  }

  lemma RemovalOrderly(reg: Registry, c: Client, n: Name)
    requires Inv(reg) && Orderly(reg, n)
    ensures Orderly(ExpireConfirmed(reg, c), n) && Orderly(ExpireUnconfirmed(reg, c), n)
  {
    WithoutMembers(reg.confirmed, c);
    WithoutMembers(reg.unconfirmed, c);
  }

  lemma ExchangeIdOrderly(reg: Registry, op: Op, n: Name)
    requires Inv(reg) && Orderly(reg, n) && op.OpExchangeId?
    ensures Orderly(Step(reg, op), n) <==> !(Stacks(reg, op) && op.who.name == n)
  {
    var who, args := op.who, op.args;
    var conf := First(reg.confirmed, ByName(who.name));
    var c := NewClient(reg, who, GenClid(reg), op.now);
    if args.badFlags || args.protect || args.update {
    } else if conf.None? {
      ExchangeFreshOrderly(reg, who, op.now, op.createOk, n);
    } else if conf.value.cred != who.cred {
      RemovalOrderly(reg, conf.value, n);
      if op.createOk { EnterAfterExpiryOrderly(reg, conf.value, c, FRESH.(exchanged := true), n); }
    } else {
      EnterOrderly(reg, c, FRESH.(exchanged := true), true, n);
    }
  }

  lemma ExchangeFreshOrderly(reg: Registry, who: Caller, now: nat, createOk: bool, n: Name)
    requires Inv(reg) && Orderly(reg, n)
    ensures Orderly(EnterExchanged(DropUnconfirmed(reg, who.name), who, now, createOk).0, n)
  {
    if createOk {
      EnterAfterDropOrderly(reg, who.name, NewClient(DropUnconfirmed(reg, who.name), who, GenClid(reg), now),
        FRESH.(exchanged := true), true, n);
    } else {
      DropUnconfirmedOrderly(reg, who.name, n);
    }
  }

  lemma DropUnconfirmedOrderly(reg: Registry, name: Name, n: Name)
    requires Inv(reg) && Orderly(reg, n)
    ensures Orderly(DropUnconfirmed(reg, name), n)
  {
    var u := First(reg.unconfirmed, ByName(name));
    if u.Some? { RemovalOrderly(reg, u.value, n); }
  }

  lemma EnterAfterDropOrderly(reg: Registry, name: Name, c: Client, live: Live, generated: bool, n: Name)
    requires Inv(reg) && Orderly(reg, n) && c.serial == reg.nextSerial && c.name == name
    ensures Orderly(Enter(DropUnconfirmed(reg, name), c, live, generated), n)
  {
    DropUnconfirmedKeeps(reg, name);
    DropUnconfirmedOrderly(reg, name, n);
    if n == name { DropUnconfirmedMembers(reg, name); }
    EnterOrderly(DropUnconfirmed(reg, name), c, live, generated, n);
  }

  lemma EnterAfterExpiryOrderly(reg: Registry, d: Client, c: Client, live: Live, n: Name)
    requires Inv(reg) && Orderly(reg, n) && c.serial == reg.nextSerial
    ensures Orderly(Enter(ExpireConfirmed(reg, d), c, live, true), n) <==>
      !(c.name == n && First(reg.unconfirmed, ByName(n)).Some?)
  {
    ExpireConfirmedKeeps(reg, d);
    RemovalOrderly(reg, d, n);
    EnterOrderly(ExpireConfirmed(reg, d), c, live, true, n);
  }

  lemma SetClientidOrderly(reg: Registry, who: Caller, now: nat, createOk: bool, n: Name)
    requires Inv(reg) && Orderly(reg, n)
    ensures Orderly(SetClientid(reg, who, now, createOk).0, n)
  {
    var conf := First(reg.confirmed, ByName(who.name));
    var r := DropUnconfirmed(reg, who.name);
    var same := conf.Some? && conf.value.verifier == who.verifier;
    if createOk {
      EnterAfterDropOrderly(reg, who.name, NewClient(r, who, if same then conf.value.clid else GenClid(r), now), FRESH,
        !same, n);
    } else {
      DropUnconfirmedOrderly(reg, who.name, n);
    }
  }

  lemma SetClientidConfirmOrderly(reg: Registry, clid: ClientId, confirm: Confirm, cred: Cred, n: Name)
    requires Inv(reg) && Orderly(reg, n)
    ensures Orderly(SetClientidConfirm(reg, clid, confirm, cred).0, n)
  {
    var conf := First(reg.confirmed, ById(clid));
    var unconf := First(reg.unconfirmed, ById(clid));
    if SetClientidConfirm(reg, clid, confirm, cred).1 == Ok && unconf.Some? {
      if conf.Some? {
        RemovalOrderly(reg, unconf.value, n);
      } else {
        PromoteOrderly(reg, unconf.value, n);
      }
    }
  }

  lemma PromoteWithSessionOrderly(reg: Registry, u: Client, n: Name)
    requires Inv(reg) && Orderly(reg, n) && u in reg.unconfirmed
    ensures Orderly(Promote(AddSession(reg, u), u), n)
  {
    PromoteOrderly(reg, u, n);
    var r := Promote(AddSession(reg, u), u);
    assert r == Promote(reg, u).(live := r.live);
  }

  lemma CreateSessionOrderly(reg: Registry, clid: ClientId, seqid: U32, cred: Cred, addr: nat, args: SessionArgs,
      n: Name)
    requires Inv(reg) && Orderly(reg, n)
    ensures Orderly(CreateSession(reg, clid, seqid, cred, addr, args).0, n)
  {
    var conf := First(reg.confirmed, ById(clid));
    var unconf := First(reg.unconfirmed, ById(clid));
    if CreateSession(reg, clid, seqid, cred, addr, args).1 == Ok && conf.None? {
      PromoteWithSessionOrderly(reg, unconf.value, n);
    }
  }

  lemma DestroyClientidOrderly(reg: Registry, clid: ClientId, current: Option<Client>, n: Name)
    requires Inv(reg) && Orderly(reg, n)
    ensures Orderly(DestroyClientid(reg, clid, current).0, n)
  {
    var conf := First(reg.confirmed, ById(clid));
    var unconf := First(reg.unconfirmed, ById(clid));
    if conf.Some? {
      RemovalOrderly(reg, conf.value, n);
    } else if unconf.Some? {
      RemovalOrderly(reg, unconf.value, n);
    }
  }

  /** Every operation keeps that order for every name, except an EXCHANGE_ID that stacks a second unconfirmed
      record of the name, and that one always breaks it. */
  lemma StepOrderly(reg: Registry, op: Op, n: Name)
    requires Inv(reg) && Orderly(reg, n)
    ensures Orderly(Step(reg, op), n) <==> !(Stacks(reg, op) && op.who.name == n)
  {
    match op
    case OpExchangeId(_, _, _, _) => ExchangeIdOrderly(reg, op, n);
    case OpSetClientid(who, now, createOk) => SetClientidOrderly(reg, who, now, createOk, n);
    case OpSetClientidConfirm(clid, confirm, cred) => SetClientidConfirmOrderly(reg, clid, confirm, cred, n);
    case OpCreateSession(clid, seqid, cred, addr, args) => CreateSessionOrderly(reg, clid, seqid, cred, addr, args, n);
    case OpDestroyClientid(clid, current) => DestroyClientidOrderly(reg, clid, current, n);
    case OpStateChange(_, _) =>
    case OpLeaseExpiry(c) => RemovalOrderly(reg, c, n);
  }

  predicate EverStacks(reg: Registry, ops: seq<Op>, n: Name)
    decreases |ops|
  {
    ops != [] && ((Stacks(reg, ops[0]) && ops[0].who.name == n) || EverStacks(Step(reg, ops[0]), ops[1..], n))
  }

  lemma {:induction false} RunOrderly(reg: Registry, ops: seq<Op>, n: Name)
    requires Inv(reg) && Orderly(reg, n) && !EverStacks(reg, ops, n)
    ensures Inv(Run(reg, ops)) && Orderly(Run(reg, ops), n)
    decreases |ops|
  {
    if ops != [] {
      StepKeeps(reg, ops[0]);
      StepOrderly(reg, ops[0], n);
      RunOrderly(Step(reg, ops[0]), ops[1..], n);
    }
  }

  /** After any run without stacking for its name, a client that holds state is displaced, if not by its lease,
      by a record of its name that was created after it. */
  lemma DisplacedByNewer(start: Registry, ops: seq<Op>, op: Op, c: Client) returns (u: Client)
    requires start == Empty(start.boot, start.nextId, start.nextConfirm) && !EverStacks(start, ops, c.name)
    requires var reg := Run(start, ops); c in reg.confirmed && reg.Of(c).hasState && c !in Step(reg, op).confirmed
    ensures op != OpLeaseExpiry(c) ==> Confirms(Run(start, ops), op, u) && u.name == c.name && u.serial > c.serial
  {
    RunOrderly(start, ops, c.name);
    u := StateLostOnlyToSameName(Run(start, ops), op, c);
  }

  /** Unconfirmed record u can be confirmed in place of c, which has its name: its clientid finds it,
      and no other confirmed client has that clientid. */
  predicate Replaces(reg: Registry, u: Client, c: Client) {
    && c in reg.confirmed && u in reg.unconfirmed && u.name == c.name
    && First(reg.unconfirmed, ById(u.clid)) == Some(u) && First(reg.confirmed, ById(u.clid)).None?
  }

  /** The CREATE_SESSION that confirms u. */
  function Session(reg: Registry, u: Client): Op {
    OpCreateSession(u.clid, (reg.Of(u).csSeqid + 1) % WORD, u.cred, u.addr, SessionArgs(false, false, true))
  }

  lemma SessionPromotes(reg: Registry, u: Client)
    requires First(reg.unconfirmed, ById(u.clid)) == Some(u) && First(reg.confirmed, ById(u.clid)).None?
    ensures Step(reg, Session(reg, u)) == Promote(AddSession(reg, u), u)
  {
  }

  lemma PromotedMembers(reg: Registry, u: Client)
    requires Inv(reg) && u in reg.unconfirmed
    ensures forall c :: c in Promote(reg, u).confirmed <==> c == u || (c in reg.confirmed && c.name != u.name)
    ensures forall v :: v in Promote(reg, u).unconfirmed <==> v in reg.unconfirmed && v != u
  {
    WithoutMembers(reg.unconfirmed, u);
    var prior := First(reg.confirmed, ByName(u.name));
    if prior.Some? { WithoutMembers(reg.confirmed, prior.value); }
  }

  /** Which record can displace which: some request confirms u and thereby discards c exactly when u
      can be confirmed in c's place. So a client is open to displacement by an older incarnation
      exactly while an older unconfirmed record of its name can be confirmed. */
  lemma DisplacedByExactly(reg: Registry, u: Client, c: Client)
    requires Inv(reg) && c in reg.confirmed
    ensures (exists op :: Confirms(reg, op, u) && c !in Step(reg, op).confirmed) <==> Replaces(reg, u, c)
  {
    if op :| Confirms(reg, op, u) && c !in Step(reg, op).confirmed {
      ConfirmsIsPromote(reg, op, u);
      PromotedMembers(reg, u);
    }
    if Replaces(reg, u, c) {
      SessionPromotes(reg, u);
      PromotedMembers(reg, u);
      var op := Session(reg, u);
      assert Promote(AddSession(reg, u), u).confirmed == Promote(reg, u).confirmed;
      assert Confirms(reg, op, u) && c !in Step(reg, op).confirmed;
    }
  }

  lemma ConfirmsIsPromote(reg: Registry, op: Op, u: Client)
    requires Inv(reg) && Confirms(reg, op, u)
    ensures First(reg.unconfirmed, ById(u.clid)) == Some(u) && First(reg.confirmed, ById(u.clid)).None?
    ensures Step(reg, op).confirmed == Promote(reg, u).confirmed
  {
    assert u !in reg.confirmed;
    ConfirmingPromotes(reg, op);
    PromotedMembers(reg, First(reg.unconfirmed, ById(op.clid)).value);
  }

  /** A request that changes who is confirmed does so by promoting the record its clientid finds. */
  lemma ConfirmingPromotes(reg: Registry, op: Op)
    requires (op.OpSetClientidConfirm? || op.OpCreateSession?) && Step(reg, op).confirmed != reg.confirmed
    ensures First(reg.confirmed, ById(op.clid)).None? && First(reg.unconfirmed, ById(op.clid)).Some?
    ensures Step(reg, op).confirmed == Promote(reg, First(reg.unconfirmed, ById(op.clid)).value).confirmed
  {
  }

  /** Two unconfirmed records of one name, each found by its own clientid: confirming the newer and
      then the older discards the newer, which by then holds a session. */
  lemma OlderDisplacesNewer(reg: Registry, older: Client, newer: Client)
    requires Inv(reg) && older in reg.unconfirmed && newer in reg.unconfirmed && older.name == newer.name
      && older != newer
    requires First(reg.unconfirmed, ById(older.clid)) == Some(older)
      && First(reg.unconfirmed, ById(newer.clid)) == Some(newer)
    requires First(reg.confirmed, ById(newer.clid)).None?
    requires forall c <- reg.confirmed :: c.clid == older.clid ==> c.name == older.name
    ensures var s1 := Step(reg, Session(reg, newer)); var s2 := Step(s1, Session(s1, older));
      && newer in s1.confirmed && s1.Of(newer).hasState && Replaces(s1, older, newer)
      && older in s2.confirmed && newer !in s2.confirmed && newer !in s2.unconfirmed
  {
    SessionPromotes(reg, newer);
    var s1 := Step(reg, Session(reg, newer));
    PromotedMembers(reg, newer);
    assert s1 == Promote(reg, newer).(live := s1.live);
    PromoteWithSessionKeeps(reg, newer);
    FirstWithout(reg.unconfirmed, newer, ById(older.clid));
    SessionPromotes(s1, older);
    PromotedMembers(s1, older);
    assert Promote(AddSession(s1, older), older).confirmed == Promote(s1, older).confirmed;
  }

  /** Taking out a record that a key does not hit, or not first, leaves the first hit. */
  lemma {:induction false} FirstWithout(l: seq<Client>, c: Client, k: Key)
    requires First(l, k) != Some(c)
    ensures First(Without(l, c), k) == First(l, k)
  {
    if l != [] && l[0] != c && !Hit(l[0], k) {
      FirstWithout(l[1..], c, k);
      var rest := Without(l[1..], c);
      assert ([l[0]] + rest)[1..] == rest;
    }
  }

  /** The 32-bit counter has not come round: records with equal clientids have one name, and the
      next clientid is nobody's. */
  ghost predicate IdsApart(reg: Registry) {
    && (forall c <- reg.confirmed + reg.unconfirmed, d <- reg.confirmed + reg.unconfirmed :: c.clid == d.clid ==>
      c.name == d.name)
    && (forall c <- reg.confirmed + reg.unconfirmed :: c.clid != GenClid(reg))
  }

  /** An EXCHANGE_ID that stacks always opens the way: two more requests, and an older record of the
      name has displaced a newer one that held a session. */
  lemma StackingOpensTheWay(reg: Registry, op: Op) returns (older: Client, newer: Client)
    requires Inv(reg) && Stacks(reg, op) && Orderly(reg, op.who.name) && IdsApart(reg)
    ensures older.serial < newer.serial && older.name == newer.name == op.who.name
    ensures var s0 := Step(reg, op); var s1 := Step(s0, Session(s0, newer)); var s2 := Step(s1, Session(s1, older));
      newer in s1.confirmed && s1.Of(newer).hasState && older in s2.confirmed && newer !in s2.confirmed
  {
    var who := op.who;
    older := First(reg.unconfirmed, ByName(who.name)).value;
    newer := NewClient(reg, who, GenClid(reg), op.now);
    var s0 := Step(reg, op);
    StackedState(reg, op);
    StepKeeps(reg, op);
    assert s0.unconfirmed[0] == newer && s0.unconfirmed[1..] == reg.unconfirmed;
    assert older in s0.unconfirmed && newer in s0.unconfirmed;
    assert older in reg.confirmed + reg.unconfirmed;
    FoundById(reg, older);
    assert forall c <- s0.confirmed :: c in reg.confirmed + reg.unconfirmed;
    OlderDisplacesNewer(s0, older, newer);
  }

  lemma FoundById(reg: Registry, u: Client)
    requires Inv(reg) && Orderly(reg, u.name) && IdsApart(reg) && u in reg.unconfirmed
    ensures First(reg.unconfirmed, ById(u.clid)) == Some(u)
  {
    var v := First(reg.unconfirmed, ById(u.clid)).value;
    assert u in reg.confirmed + reg.unconfirmed && v in reg.confirmed + reg.unconfirmed;
  }

  lemma StackedState(reg: Registry, op: Op)
    requires Inv(reg) && Stacks(reg, op)
    ensures Step(reg, op).unconfirmed == [NewClient(reg, op.who, GenClid(reg), op.now)] + reg.unconfirmed
    ensures forall c <- Step(reg, op).confirmed :: c in reg.confirmed
  {
    WithoutMembers(reg.confirmed, First(reg.confirmed, ByName(op.who.name)).value);
  }

  // ---- ids stay apart until the counter comes round ----

  /** Every clientid in use was handed out before, and only to one name. */
  ghost predicate Young(reg: Registry) {
    && (forall c <- reg.confirmed + reg.unconfirmed :: c.clid.id < reg.nextId)
    && (forall c <- reg.confirmed + reg.unconfirmed, d <- reg.confirmed + reg.unconfirmed :: c.clid == d.clid ==>
      c.name == d.name)
  }

  lemma YoungShrinks(reg: Registry, r: Registry)
    requires Young(reg) && r.nextId == reg.nextId
    requires forall c <- r.confirmed + r.unconfirmed :: c in reg.confirmed + reg.unconfirmed
    ensures Young(r)
  {
  }

  lemma YoungEnters(reg: Registry, c: Client, live: Live, generated: bool)
    requires Young(reg) && reg.nextId + 1 < WORD
    requires if generated then c.clid == GenClid(reg)
      else exists d <- reg.confirmed :: d.clid == c.clid && d.name == c.name
    ensures Young(Enter(reg, c, live, generated))
  {
    var r := Enter(reg, c, live, generated);
    assert forall d <- r.confirmed + r.unconfirmed :: d == c || d in reg.confirmed + reg.unconfirmed;
    if d :| d in reg.confirmed && d.clid == c.clid && d.name == c.name {
      assert d in reg.confirmed + reg.unconfirmed;
    }
  }

  lemma ExpireYoung(reg: Registry, c: Client)
    requires Inv(reg) && Young(reg)
    ensures Young(ExpireConfirmed(reg, c)) && Young(ExpireUnconfirmed(reg, c))
  {
    WithoutMembers(reg.confirmed, c);
    WithoutMembers(reg.unconfirmed, c);
    YoungShrinks(reg, ExpireConfirmed(reg, c));
    YoungShrinks(reg, ExpireUnconfirmed(reg, c));
  }

  lemma DropUnconfirmedYoung(reg: Registry, name: Name)
    requires Inv(reg) && Young(reg)
    ensures Young(DropUnconfirmed(reg, name))
  {
    var u := First(reg.unconfirmed, ByName(name));
    if u.Some? { ExpireYoung(reg, u.value); }
  }

  lemma PromoteYoung(reg: Registry, u: Client)
    requires Inv(reg) && Young(reg) && u in reg.unconfirmed
    ensures Young(Promote(reg, u))
  {
    PromotedMembers(reg, u);
    YoungShrinks(reg, Promote(reg, u));
  }

  lemma SetClientidYoung(reg: Registry, who: Caller, now: nat, createOk: bool)
    requires Inv(reg) && Young(reg) && reg.nextId + 1 < WORD
    ensures Young(SetClientid(reg, who, now, createOk).0)
  {
    var conf := First(reg.confirmed, ByName(who.name));
    var r := DropUnconfirmed(reg, who.name);
    var same := conf.Some? && conf.value.verifier == who.verifier;
    var c := NewClient(r, who, if same then conf.value.clid else GenClid(r), now);
    DropUnconfirmedYoung(reg, who.name);
    YoungEnters(r, c, FRESH, !same);
  }

  lemma EnterExchangedYoung(reg: Registry, who: Caller, now: nat, createOk: bool)
    requires Young(reg) && reg.nextId + 1 < WORD
    ensures Young(EnterExchanged(reg, who, now, createOk).0)
  {
    if createOk {
      YoungEnters(reg, NewClient(reg, who, GenClid(reg), now), FRESH.(exchanged := true), true);
    }
  }

  lemma ExchangeIdYoung(reg: Registry, who: Caller, args: ExidArgs, now: nat, createOk: bool)
    requires Inv(reg) && Young(reg) && reg.nextId + 1 < WORD
    ensures Young(ExchangeId(reg, who, args, now, createOk).0)
  {
    var conf := First(reg.confirmed, ByName(who.name));
    if args.badFlags || args.protect || args.update {
    } else if conf.None? {
      DropUnconfirmedYoung(reg, who.name);
      EnterExchangedYoung(DropUnconfirmed(reg, who.name), who, now, createOk);
    } else if conf.value.cred != who.cred {
      ExpireYoung(reg, conf.value);
      EnterExchangedYoung(ExpireConfirmed(reg, conf.value), who, now, createOk);
    } else {
      EnterExchangedYoung(reg, who, now, createOk);
    }
  }

  lemma SetClientidConfirmYoung(reg: Registry, clid: ClientId, confirm: Confirm, cred: Cred)
    requires Inv(reg) && Young(reg)
    ensures Young(SetClientidConfirm(reg, clid, confirm, cred).0)
  {
    var conf := First(reg.confirmed, ById(clid));
    var unconf := First(reg.unconfirmed, ById(clid));
    if SetClientidConfirm(reg, clid, confirm, cred).1 == Ok && unconf.Some? {
      if conf.Some? {
        ExpireYoung(reg, unconf.value);
      } else {
        PromoteYoung(reg, unconf.value);
      }
    }
  }

  lemma PromoteWithSessionYoung(reg: Registry, u: Client)
    requires Inv(reg) && Young(reg) && u in reg.unconfirmed
    ensures Young(Promote(AddSession(reg, u), u))
  {
    PromoteYoung(reg, u);
    var r := Promote(AddSession(reg, u), u);
    assert r == Promote(reg, u).(live := r.live);
  }

  lemma CreateSessionYoung(reg: Registry, clid: ClientId, seqid: U32, cred: Cred, addr: nat, args: SessionArgs)
    requires Inv(reg) && Young(reg)
    ensures Young(CreateSession(reg, clid, seqid, cred, addr, args).0)
  {
    var conf := First(reg.confirmed, ById(clid));
    var unconf := First(reg.unconfirmed, ById(clid));
    if CreateSession(reg, clid, seqid, cred, addr, args).1 == Ok && conf.None? {
      PromoteWithSessionYoung(reg, unconf.value);
    }
  }

  lemma DestroyClientidYoung(reg: Registry, clid: ClientId, current: Option<Client>)
    requires Inv(reg) && Young(reg)
    ensures Young(DestroyClientid(reg, clid, current).0)
  {
    var conf := First(reg.confirmed, ById(clid));
    var unconf := First(reg.unconfirmed, ById(clid));
    if conf.Some? {
      ExpireYoung(reg, conf.value);
    } else if unconf.Some? {
      ExpireYoung(reg, unconf.value);
    }
  }

  /** Each operation takes at most one new id. */
  lemma NextIdMoves(reg: Registry, op: Op)
    requires reg.nextId + 1 < WORD
    ensures Step(reg, op).nextId <= reg.nextId + 1
  {
  }

  lemma StepYoung(reg: Registry, op: Op)
    requires Inv(reg) && Young(reg) && reg.nextId + 1 < WORD
    ensures Young(Step(reg, op))
  {
    match op
    case OpSetClientid(who, now, createOk) => SetClientidYoung(reg, who, now, createOk);
    case OpExchangeId(who, args, now, createOk) => ExchangeIdYoung(reg, who, args, now, createOk);
    case OpSetClientidConfirm(clid, confirm, cred) => SetClientidConfirmYoung(reg, clid, confirm, cred);
    case OpCreateSession(clid, seqid, cred, addr, args) => CreateSessionYoung(reg, clid, seqid, cred, addr, args);
    case OpDestroyClientid(clid, current) => DestroyClientidYoung(reg, clid, current);
    case OpStateChange(_, _) =>
    case OpLeaseExpiry(c) => ExpireYoung(reg, c);
  }

  /** Before the counter has come round once, clientids stay apart. */
  lemma {:induction false} RunIdsApart(reg: Registry, ops: seq<Op>)
    requires Inv(reg) && Young(reg) && reg.nextId + |ops| < WORD
    ensures IdsApart(Run(reg, ops)) && Inv(Run(reg, ops))
    decreases |ops|
  {
    if ops != [] {
      StepKeeps(reg, ops[0]);
      StepYoung(reg, ops[0]);
      NextIdMoves(reg, ops[0]);
      RunIdsApart(Step(reg, ops[0]), ops[1..]);
    }
  }

  /** Over runs too short for the clientid counter to come round, the first EXCHANGE_ID that stacks
      for a name opens the way to displacing a newer client with state by an older one. */
  lemma FirstStackingOpensTheWay(start: Registry, ops: seq<Op>, op: Op) returns (older: Client, newer: Client)
    requires start == Empty(start.boot, start.nextId, start.nextConfirm) && start.nextId + |ops| < WORD
    requires Stacks(Run(start, ops), op) && !EverStacks(start, ops, op.who.name)
    ensures older.serial < newer.serial && older.name == newer.name == op.who.name
    ensures var s0 := Step(Run(start, ops), op); var s1 := Step(s0, Session(s0, newer));
      var s2 := Step(s1, Session(s1, older));
      newer in s1.confirmed && s1.Of(newer).hasState && older in s2.confirmed && newer !in s2.confirmed
  {
    RunIdsApart(start, ops);
    RunOrderly(start, ops, op.who.name);
    older, newer := StackingOpensTheWay(Run(start, ops), op);
  }

  function At(ver: nat, name: Name, cred: Cred): Caller {
    Caller(name, ver, cred, 0)
  }

  function Made(serial: nat, id: U32, ver: nat, name: Name, cred: Cred): Client
    requires serial < WORD
  {
    Client(serial, ClientId(7, id), name, ver, cred, 0, Confirm(0, serial))
  }

  const PLAIN := ExidArgs(false, false, false)
  const GOOD := SessionArgs(false, false, true)
  const EXCHANGED := Live(true, false, 0)
  const WITH_SESSION := Live(true, true, 1)

  lemma FirstExchange(name: Name, cred: Cred)
    ensures var c0 := Made(0, 1, 0, name, cred);
      Step(Empty(7, 1, 0), OpExchangeId(At(0, name, cred), PLAIN, 0, true)) ==
        Registry(7, 2, 1, 1, [], [c0], map[0 := EXCHANGED])
  {
  }

  lemma FirstSession(name: Name, cred: Cred)
    ensures var c0 := Made(0, 1, 0, name, cred);
      Step(Registry(7, 2, 1, 1, [], [c0], map[0 := EXCHANGED]), OpCreateSession(ClientId(7, 1), 1, cred, 0, GOOD)) ==
        Registry(7, 2, 1, 1, [c0], [], map[0 := WITH_SESSION])
  {
  }

  lemma SecondExchange(name: Name, cred: Cred)
    ensures var c0, c1 := Made(0, 1, 0, name, cred), Made(1, 2, 1, name, cred);
      Step(Registry(7, 2, 1, 1, [c0], [], map[0 := WITH_SESSION]), OpExchangeId(At(1, name, cred), PLAIN, 0, true)) ==
        Registry(7, 3, 2, 2, [c0], [c1], map[0 := WITH_SESSION, 1 := EXCHANGED])
  {
  }

  lemma ThirdExchange(name: Name, cred: Cred)
    ensures var c0, c1, c2 := Made(0, 1, 0, name, cred), Made(1, 2, 1, name, cred), Made(2, 3, 2, name, cred);
      Step(Registry(7, 3, 2, 2, [c0], [c1], map[0 := WITH_SESSION, 1 := EXCHANGED]),
        OpExchangeId(At(2, name, cred), PLAIN, 0, true)) ==
        Registry(7, 4, 3, 3, [c0], [c2, c1], map[0 := WITH_SESSION, 1 := EXCHANGED, 2 := EXCHANGED])
  {
  }

  lemma SecondSession(name: Name, cred: Cred)
    ensures var c0, c1, c2 := Made(0, 1, 0, name, cred), Made(1, 2, 1, name, cred), Made(2, 3, 2, name, cred);
      Step(Registry(7, 4, 3, 3, [c0], [c2, c1], map[0 := WITH_SESSION, 1 := EXCHANGED, 2 := EXCHANGED]),
           OpCreateSession(ClientId(7, 3), 1, cred, 0, GOOD)) ==
        Registry(7, 4, 3, 3, [c2], [c1], map[0 := WITH_SESSION, 1 := EXCHANGED, 2 := WITH_SESSION])
  {
  }

  lemma ThirdSession(name: Name, cred: Cred)
    ensures var c1, c2 := Made(1, 2, 1, name, cred), Made(2, 3, 2, name, cred);
      Step(Registry(7, 4, 3, 3, [c2], [c1], map[0 := WITH_SESSION, 1 := EXCHANGED, 2 := WITH_SESSION]),
           OpCreateSession(ClientId(7, 2), 1, cred, 0, GOOD)) ==
        Registry(7, 4, 3, 3, [c1], [], map[0 := WITH_SESSION, 1 := WITH_SESSION, 2 := WITH_SESSION])
  {
  }

  /** Three incarnations of one client, of which the third is confirmed before the second: the
      record confirmed last is older than the one it displaces, which holds a session. */
  lemma StackingDisplacesNewer(name: Name, cred: Cred)
    ensures var r1 := Step(Empty(7, 1, 0), OpExchangeId(At(0, name, cred), PLAIN, 0, true));
      var r2 := Step(r1, OpCreateSession(ClientId(7, 1), 1, cred, 0, GOOD));
      var r3 := Step(r2, OpExchangeId(At(1, name, cred), PLAIN, 0, true));
      var r4 := Step(r3, OpExchangeId(At(2, name, cred), PLAIN, 0, true));
      var r5 := Step(r4, OpCreateSession(ClientId(7, 3), 1, cred, 0, GOOD));
      var r6 := Step(r5, OpCreateSession(ClientId(7, 2), 1, cred, 0, GOOD));
      var newer, older := Made(2, 3, 2, name, cred), Made(1, 2, 1, name, cred);
      r5.confirmed == [newer] && r5.Of(newer).hasState && r6.confirmed == [older]
  {
    FirstExchange(name, cred);
    FirstSession(name, cred);
    SecondExchange(name, cred);
    ThirdExchange(name, cred);
    SecondSession(name, cred);
    ThirdSession(name, cred);
  }

  // ---- establishing a client ----

  /** SETCLIENTID and the SETCLIENTID_CONFIRM that echoes its answer leave a confirmed record with
      the caller's name, verifier and credential under the clientid that was returned, provided
      the 32-bit counter did not just produce a confirmed client's id. */
  lemma SetClientidThenConfirm(reg: Registry, who: Caller, now: nat)
    requires Inv(reg) && First(reg.confirmed, ById(GenClid(reg))).None?
    requires SetClientid(reg, who, now, true).1 == Ok
    ensures var (r, _, c) := SetClientid(reg, who, now, true);
      && c.Some?
      && var (s, status) := SetClientidConfirm(r, c.value.clid, c.value.confirm, who.cred);
        status == Ok && First(s.confirmed, ByName(who.name)).Some?
        && var d := First(s.confirmed, ByName(who.name)).value;
          d.verifier == who.verifier && d.cred == who.cred && d.clid == c.value.clid
  {
    var conf := First(reg.confirmed, ByName(who.name));
    DropUnconfirmedKeeps(reg, who.name);
    var (r, _, c) := SetClientid(reg, who, now, true);
    assert r.unconfirmed[0] == c.value && r.confirmed == reg.confirmed;
    if conf.Some? {
      assert conf.value in reg.confirmed + reg.unconfirmed;
      if conf.value.verifier == who.verifier {
        assert First(r.confirmed, ById(conf.value.clid)) == conf;
      }
    }
  }

  /** EXCHANGE_ID that makes a new record, and CREATE_SESSION with the sequence id it returned. */
  lemma ExchangeIdThenSession(reg: Registry, who: Caller, args: ExidArgs, now: nat, sessionArgs: SessionArgs)
    requires Inv(reg) && First(reg.confirmed, ById(GenClid(reg))).None?
    requires ExchangeId(reg, who, args, now, true).1 == Ok
      && ExchangeId(reg, who, args, now, true).2.value !in reg.confirmed
    requires sessionArgs == SessionArgs(false, false, true)
    ensures var (r, _, c) := ExchangeId(reg, who, args, now, true);
      && var (s, status) := CreateSession(r, c.value.clid, 1, who.cred, who.addr, sessionArgs);
        status == Ok && First(s.confirmed, ByName(who.name)) == c && s.Of(c.value).hasState
        && c.value.verifier == who.verifier && c.value.cred == who.cred
  {
    var conf := First(reg.confirmed, ByName(who.name));
    var (r, _, c) := ExchangeId(reg, who, args, now, true);
    if conf.Some? {
      WithoutMembers(reg.confirmed, conf.value);
      assert forall d <- r.confirmed :: d in reg.confirmed;
    }
    SessionConfirms(r, c.value, who, sessionArgs);
  }

  /** The newest record is the one its clientid finds, and its first CREATE_SESSION confirms it. */
  lemma SessionConfirms(r: Registry, c: Client, who: Caller, sessionArgs: SessionArgs)
    requires r.unconfirmed != [] && r.unconfirmed[0] == c && r.Of(c).csSeqid == 0
    requires c.cred == who.cred && c.addr == who.addr && c.name == who.name
    requires First(r.confirmed, ById(c.clid)).None? && sessionArgs == SessionArgs(false, false, true)
    ensures var (s, status) := CreateSession(r, c.clid, 1, who.cred, who.addr, sessionArgs);
      status == Ok && First(s.confirmed, ByName(who.name)) == Some(c) && s.Of(c).hasState
  {
  }

  // ---- the implementation ----

  /** The four tables, as arrays of chains; the two lists they file are ghosts. */
  class Tables {
    const boot: U32
    const confId: array<seq<Client>>
    const confStr: array<seq<Client>>
    const unconfId: array<seq<Client>>
    const unconfStr: array<seq<Client>>
    var nextId: U32
    var nextConfirm: U32
    var nextSerial: nat
    var live: map<nat, Live>
    ghost var confirmed: seq<Client>
    ghost var unconfirmed: seq<Client>

    ghost predicate Files(t: array<seq<Client>>, l: seq<Client>, byId: bool)
      reads t
    {
      t.Length == HASH_SIZE && forall b :: 0 <= b < HASH_SIZE ==> t[b] == Chain(l, byId, b)
    }

    ghost predicate Valid()
      reads this, confId, confStr, unconfId, unconfStr
    {
      && confId != confStr && confId != unconfId && confId != unconfStr
      && confStr != unconfId && confStr != unconfStr && unconfId != unconfStr
      && Files(confId, confirmed, true) && Files(confStr, confirmed, false)
      && Files(unconfId, unconfirmed, true) && Files(unconfStr, unconfirmed, false)
    }

    ghost function Model(): Registry
      reads this
    {
      Registry(boot, nextId, nextConfirm, nextSerial, confirmed, unconfirmed, live)
    }

    constructor (boot: U32, nextId: U32, nextConfirm: U32)
      ensures Valid() && fresh(confId) && fresh(confStr) && fresh(unconfId) && fresh(unconfStr)
      ensures Model() == Empty(boot, nextId, nextConfirm)
    {
      this.boot, this.nextId, this.nextConfirm, nextSerial, live := boot, nextId, nextConfirm, 0, map[];
      confId := new seq<Client>[HASH_SIZE](_ => []);
      confStr := new seq<Client>[HASH_SIZE](_ => []);
      unconfId := new seq<Client>[HASH_SIZE](_ => []);
      unconfStr := new seq<Client>[HASH_SIZE](_ => []);
      confirmed, unconfirmed := [], [];
    }

    /** A list walk. */
    static method Walk(chain: seq<Client>, k: Key) returns (r: Option<Client>)
      ensures r == First(chain, k)
    {
      for i := 0 to |chain|
        invariant First(chain, k) == First(chain[i..], k)
      {
        assert chain[i..][1..] == chain[i+1..];
        if Hit(chain[i], k) {
          return Some(chain[i]);
        }
      }
      r := None;
    }

    /** find_confirmed_client, find_confirmed_client_by_str. */
    method FindConfirmed(k: Key) returns (r: Option<Client>)
      requires Valid()
      ensures r == First(confirmed, k)
    {
      ChainLookupIsScan(confirmed, k);
      var table := if k.ById? then confId else confStr;
      r := Walk(table[HashOf(k)], k);
    }

    /** find_unconfirmed_client, find_unconfirmed_client_by_str. */
    method FindUnconfirmed(k: Key) returns (r: Option<Client>)
      requires Valid()
      ensures r == First(unconfirmed, k)
    {
      ChainLookupIsScan(unconfirmed, k);
      var table := if k.ById? then unconfId else unconfStr;
      r := Walk(table[HashOf(k)], k);
    }

    /** list_add at the head of the chain a client hashes to. */
    method Link(t: array<seq<Client>>, c: Client, byId: bool, ghost l: seq<Client>)
      requires Files(t, l, byId)
      modifies t
      ensures Files(t, [c] + l, byId)
    {
      var b := HashOf(KeyOf(c, byId));
      t[b] := [c] + t[b];
      forall i | 0 <= i < HASH_SIZE ensures t[i] == Chain([c] + l, byId, i) {
        ChainCons(l, c, byId, i);
      }
    }

    /** list_del from it. */
    method Unlink(t: array<seq<Client>>, c: Client, byId: bool, ghost l: seq<Client>)
      requires Files(t, l, byId)
      modifies t
      ensures Files(t, Without(l, c), byId)
    {
      var b := HashOf(KeyOf(c, byId));
      t[b] := Without(t[b], c);
      forall i | 0 <= i < HASH_SIZE ensures t[i] == Chain(Without(l, c), byId, i) {
        ChainWithout(l, c, byId, i);
      }
    }

    method ExpireClient(c: Client, isConfirmed: bool)
      requires Valid()
      modifies this`confirmed, this`unconfirmed, confId, confStr, unconfId, unconfStr
      ensures Valid()
      ensures Model() == if isConfirmed then ExpireConfirmed(old(Model()), c) else ExpireUnconfirmed(old(Model()), c)
    {
      if isConfirmed {
        Unlink(confId, c, true, confirmed);
        Unlink(confStr, c, false, confirmed);
        confirmed := Without(confirmed, c);
      } else {
        Unlink(unconfId, c, true, unconfirmed);
        Unlink(unconfStr, c, false, unconfirmed);
        unconfirmed := Without(unconfirmed, c);
      }
    }

    method MoveClient(c: Client)
      requires Valid()
      modifies this`confirmed, this`unconfirmed, confId, confStr, unconfId, unconfStr
      ensures Valid() && Model() == MoveToConfirmed(old(Model()), c)
    {
      Unlink(unconfId, c, true, unconfirmed);
      Link(confId, c, true, confirmed);
      Unlink(unconfStr, c, false, unconfirmed);
      Link(confStr, c, false, confirmed);
      unconfirmed := Without(unconfirmed, c);
      confirmed := [c] + confirmed;
    }

    /** create_client, gen_clid or copy_clid, and add_to_unconfirmed. */
    method CreateClient(who: Caller, copied: Option<ClientId>, start: Live, now: nat) returns (c: Client)
      requires Valid()
      modifies this, unconfId, unconfStr
      ensures Valid()
      ensures c == NewClient(old(Model()), who, if copied.Some? then copied.value else GenClid(old(Model())), now)
      ensures Model() == Enter(old(Model()), c, start, copied.None?)
    {
      var clid;
      if copied.Some? {
        clid := copied.value;
      } else {
        clid := ClientId(boot, nextId);
        nextId := (nextId + 1) % WORD;
      }
      c := Client(nextSerial, clid, who.name, who.verifier, who.cred, who.addr, Confirm(now, nextConfirm));
      nextConfirm := (nextConfirm + 1) % WORD;
      nextSerial := nextSerial + 1;
      live := live[c.serial := start];
      Link(unconfStr, c, false, unconfirmed);
      Link(unconfId, c, true, unconfirmed);
      unconfirmed := [c] + unconfirmed;
    }

    function Of(c: Client): (r: Live)
      reads this
      ensures r == Model().Of(c)
    {
      if c.serial in live then live[c.serial] else FRESH
    }

    method OnSetClientid(who: Caller, now: nat, createOk: bool) returns (status: Status, r: Option<Client>)
      requires Valid()
      modifies this, confId, confStr, unconfId, unconfStr
      ensures Valid() && (Model(), status, r) == SetClientid(old(Model()), who, now, createOk)
    {
      var conf := FindConfirmed(ByName(who.name));
      if conf.Some? && (Of(conf.value).exchanged || conf.value.cred != who.cred) {
        return ClidInUse, None;
      }
      var unconf := FindUnconfirmed(ByName(who.name));
      if unconf.Some? {
        ExpireClient(unconf.value, false);
      }
      if !createOk {
        return Jukebox, None;
      }
      var copied := if conf.Some? && conf.value.verifier == who.verifier then Some(conf.value.clid) else None;
      var c := CreateClient(who, copied, FRESH, now);
      return Ok, Some(c);
    }

    method ConfirmClient(u: Client)
      requires Valid()
      modifies this`confirmed, this`unconfirmed, confId, confStr, unconfId, unconfStr
      ensures Valid() && Model() == Promote(old(Model()), u)
    {
      var prior := FindConfirmed(ByName(u.name));
      if prior.Some? {
        ExpireClient(prior.value, true);
      }
      MoveClient(u);
    }

    method OnSetClientidConfirm(clid: ClientId, confirm: Confirm, cred: Cred) returns (status: Status)
      requires Valid()
      modifies this, confId, confStr, unconfId, unconfStr
      ensures Valid() && (Model(), status) == SetClientidConfirm(old(Model()), clid, confirm, cred)
    {
      if clid.boot != boot {
        return StaleClientid;
      }
      var conf := FindConfirmed(ById(clid));
      var unconf := FindUnconfirmed(ById(clid));
      if unconf.Some? && unconf.value.cred != cred {
        return ServerFault;
      }
      if conf.Some? && conf.value.cred != cred {
        return ServerFault;
      }
      if unconf.None? || confirm != unconf.value.confirm {
        return if conf.Some? && unconf.None? then Ok else StaleClientid;
      }
      if conf.Some? {
        ExpireClient(unconf.value, false);
      } else {
        ConfirmClient(unconf.value);
      }
      status := Ok;
    }

    method OnExchangeId(who: Caller, args: ExidArgs, now: nat, createOk: bool)
        returns (status: Status, r: Option<Client>)
      requires Valid()
      modifies this, confId, confStr, unconfId, unconfStr
      ensures Valid() && (Model(), status, r) == ExchangeId(old(Model()), who, args, now, createOk)
    {
      if args.badFlags {
        return Inval, None;
      }
      if args.protect {
        return ServerFault, None;
      }
      var conf := FindConfirmed(ByName(who.name));
      if conf.Some? {
        var c := conf.value;
        if args.update {
          if !Of(c).exchanged {
            return Inval, None;
          }
          if c.cred != who.cred {
            return Perm, None;
          }
          if c.verifier != who.verifier {
            return NotSame, None;
          }
        }
        if c.cred == who.cred && c.verifier == who.verifier {
          live := live[c.serial := Of(c).(exchanged := true)];
          return Ok, conf;
        }
        if c.cred != who.cred {
          if Of(c).hasState {
            return ClidInUse, None;
          }
          ExpireClient(c, true);
        }
      } else {
        if args.update {
          return NoEnt, None;
        }
        var unconf := FindUnconfirmed(ByName(who.name));
        if unconf.Some? {
          ExpireClient(unconf.value, false);
        }
      }
      if !createOk {
        return Jukebox, None;
      }
      var c := CreateClient(who, None, FRESH.(exchanged := true), now);
      return Ok, Some(c);
    }

    method OnCreateSession(clid: ClientId, seqid: U32, cred: Cred, addr: nat, args: SessionArgs)
        returns (status: Status)
      requires Valid()
      modifies this, confId, confStr, unconfId, unconfStr
      ensures Valid() && (Model(), status) == CreateSession(old(Model()), clid, seqid, cred, addr, args)
    {
      if args.badFlags {
        return Inval;
      }
      var unconf := FindUnconfirmed(ById(clid));
      var conf := FindConfirmed(ById(clid));
      var c;
      if conf.Some? {
        c := conf.value;
        if seqid != (Of(c).csSeqid + 1) % WORD {
          return if seqid == Of(c).csSeqid then Replayed else SeqMisordered;
        }
      } else if unconf.Some? {
        c := unconf.value;
        if c.cred != cred || c.addr != addr {
          return ClidInUse;
        }
        if seqid != (Of(c).csSeqid + 1) % WORD {
          return SeqMisordered;
        }
      } else {
        return StaleClientid;
      }
      if args.tooSmall {
        return TooSmall;
      }
      if !args.sessionOk {
        return Jukebox;
      }
      live := live[c.serial := Of(c).(hasState := true, csSeqid := (Of(c).csSeqid + 1) % WORD)];
      if conf.None? {
        ConfirmClient(c);
      }
      status := Ok;
    }

    method OnDestroyClientid(clid: ClientId, current: Option<Client>) returns (status: Status)
      requires Valid()
      modifies this, confId, confStr, unconfId, unconfStr
      ensures Valid() && (Model(), status) == DestroyClientid(old(Model()), clid, current)
    {
      var unconf := FindUnconfirmed(ById(clid));
      var conf := FindConfirmed(ById(clid));
      if conf.Some? {
        if Of(conf.value).hasState || current == conf {
          return ClientidBusy;
        }
        ExpireClient(conf.value, true);
      } else if unconf.Some? {
        ExpireClient(unconf.value, false);
      } else {
        return StaleClientid;
      }
      status := Ok;
    }
  }
}
