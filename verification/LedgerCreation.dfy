/** Creating a ledger, and the recovery of a creation cut short
    (v2.2/core/ledger/kvledger/kv_ledger_provider.go). */
module LedgerCreation {
  import opened Common

  /** A block; channel None: no channel id can be read from it. */
  datatype Block = Block(channel: Option<string>, data: Bytes)

  /** On disk: the under-construction flag, the listed ledgers with their genesis blocks, the ledgers
      with metadata, those whose private data store holds a block, and the chains in the block stores. */
  datatype Disk = Disk(flag: Option<string>, ledgers: map<string, Block>, metadata: set<string>,
                       pvt: set<string>, stores: map<string, seq<Block>>)

  const EMPTY := Disk(None, map[], {}, {}, map[])

  datatype Write =
    | SetFlag(id: string)
    | UnsetFlag
    | AddPvt(id: string)
    | AddGenesis(id: string, block: Block)
    | ListLedger(id: string, block: Block)

  function StoreOf(d: Disk, id: string): seq<Block> {
    if id in d.stores then d.stores[id] else []
  }

  /** One atomic write; listing writes both keys and deletes the flag in one batch. */
  function Apply(d: Disk, w: Write): Disk {
    match w
    case SetFlag(id) => d.(flag := Some(id))
    case UnsetFlag => d.(flag := None)
    case AddPvt(id) => d.(pvt := d.pvt + {id})
    case AddGenesis(id, b) => d.(stores := d.stores[id := StoreOf(d, id) + [b]])
    case ListLedger(id, b) => d.(flag := None, ledgers := d.ledgers[id := b], metadata := d.metadata + {id})
  }

  function ApplyAll(d: Disk, ws: seq<Write>): Disk
    decreases |ws|
  {
    if ws == [] then d else ApplyAll(Apply(d, ws[0]), ws[1..])
  }

  /** The first n of some writes. */
  function Prefix(ws: seq<Write>, n: nat): seq<Write> {
    if n < |ws| then ws[..n] else ws
  }

  lemma ApplyOne(d: Disk, ws: seq<Write>, n: nat)
    requires ws != [] && n > 0
    ensures ApplyAll(d, Prefix(ws, n)) == ApplyAll(Apply(d, ws[0]), Prefix(ws[1..], n - 1))
  {
    assert Prefix(ws, n)[1..] == Prefix(ws[1..], n - 1);
  }

  // ---------- what create and recovery write ----------

  /** How opening the ledger and committing the genesis block come out: where the first error is.
      The block store may fail before or behind its write. */
  datatype Env = OpenFails | ValidationFails | PvtFails | StoreFails | StoreFailsBehind | Succeeds

  /** The commit waits for ever: the height of the private data store is not that of the genesis block. */
  predicate Spins(d: Disk, id: string, env: Env) {
    env != OpenFails && env != ValidationFails && id in d.pvt
  }

  /** The block store takes the genesis block. */
  predicate StoreTakes(d: Disk, id: string, env: Env) {
    (env == Succeeds || env == StoreFailsBehind) && StoreOf(d, id) == []
  }

  /** What committing the genesis block writes into the stores. */
  function GenesisWrites(d: Disk, id: string, genesis: Block, env: Env): seq<Write> {
    if env == ValidationFails || Spins(d, id, env) || env == PvtFails then []
    else if StoreTakes(d, id, env) then [AddPvt(id), AddGenesis(id, genesis)]
    else [AddPvt(id)]
  }

  /** The writes of a whole Create. */
  function CreateWrites(d: Disk, genesis: Block, env: Env): seq<Write> {
    if genesis.channel.None? || genesis.channel.value in d.ledgers then []
    else
      var id := genesis.channel.value;
      if env == OpenFails then [SetFlag(id), UnsetFlag]
      else
        var stores := GenesisWrites(d, id, genesis, env);
        [SetFlag(id)] + stores + if env == Succeeds && |stores| == 2 then [ListLedger(id, genesis)] else []
  }

  /** The writes of a whole recovery; an empty flag reads as none. */
  function RecoverWrites(d: Disk): seq<Write> {
    if d.flag.None? || d.flag.value == "" then []
    else
      var id := d.flag.value;
      if StoreOf(d, id) == [] then [UnsetFlag]
      else if |StoreOf(d, id)| == 1 then [ListLedger(id, StoreOf(d, id)[0])]
      else []
  }

  // ---------- the invariant ----------

  /** Listed ledgers have metadata and their genesis block; any other ledger with a block is flagged. */
  predicate Sound(d: Disk) {
    && d.ledgers.Keys == d.metadata
    && (forall id | id in d.ledgers :: StoreOf(d, id) != [] && StoreOf(d, id)[0] == d.ledgers[id])
    && (forall id | id in d.stores && id !in d.ledgers && d.stores[id] != [] ::
          d.flag == Some(id) && |d.stores[id]| == 1)
    && (d.flag.Some? ==> d.flag.value !in d.ledgers && d.flag.value != "")
    && (forall id | id in d.stores && d.stores[id] != [] :: id in d.pvt)
  }

  /** A ledger is listed exactly when its genesis block is stored. */
  ghost predicate Settled(d: Disk) {
    d.flag == None && forall id :: id in d.ledgers <==> StoreOf(d, id) != []
  }

  /** Sound before, between and behind the writes. */
  predicate SoundThroughout(d: Disk, ws: seq<Write>)
    decreases |ws|
  {
    Sound(d) && (ws == [] || SoundThroughout(Apply(d, ws[0]), ws[1..]))
  }

  lemma {:induction false} SoundAtEveryCut(d: Disk, ws: seq<Write>, n: nat)
    requires SoundThroughout(d, ws)
    ensures Sound(ApplyAll(d, Prefix(ws, n)))
    decreases |ws|
  {
    if ws != [] && n > 0 {
      SoundAtEveryCut(Apply(d, ws[0]), ws[1..], n - 1);
      ApplyOne(d, ws, n);
    }
  }

  lemma SoundMore(d: Disk, w: Write, ws: seq<Write>)
    requires Sound(d) && SoundThroughout(Apply(d, w), ws)
    ensures SoundThroughout(d, [w] + ws)
  {
    assert ([w] + ws)[1..] == ws;
  }

  lemma NoStoreWithoutFlag(d: Disk, id: string)
    requires Sound(d) && d.flag == None && id !in d.ledgers
    ensures StoreOf(d, id) == []
  {
  }

  /** The steps of a creation, each from the one before. */
  lemma CreationSteps(d: Disk, id: string, genesis: Block)
    requires Sound(d) && d.flag == None && id !in d.ledgers && id != "" && StoreOf(d, id) == []
    ensures var d1 := Apply(d, SetFlag(id));
            var d2 := Apply(d1, AddPvt(id));
            var d3 := Apply(d2, AddGenesis(id, genesis));
            && Sound(d1) && Sound(Apply(d1, UnsetFlag)) && Sound(d2) && Sound(d3)
            && Sound(Apply(d3, ListLedger(id, genesis)))
  {
    assert Apply(Apply(d, SetFlag(id)), UnsetFlag) == d;
  }

  lemma CreationSound(d: Disk, genesis: Block, env: Env)
    requires Sound(d) && d.flag == None && genesis.channel != Some("")
    ensures SoundThroughout(d, CreateWrites(d, genesis, env))
  {
    if genesis.channel.Some? && genesis.channel.value !in d.ledgers {
      var id := genesis.channel.value;
      var ws, d1 := CreateWrites(d, genesis, env), Apply(d, SetFlag(id));
      var d2 := Apply(d1, AddPvt(id));
      var d3 := Apply(d2, AddGenesis(id, genesis));
      NoStoreWithoutFlag(d, id);
      CreationSteps(d, id, genesis);
      if env == OpenFails {
        SoundMore(d1, UnsetFlag, []);
        SoundMore(d, SetFlag(id), [UnsetFlag]);
        assert [UnsetFlag] + [] == [UnsetFlag] && [SetFlag(id)] + [UnsetFlag] == ws;
      } else {
        var last := if env == Succeeds then [ListLedger(id, genesis)] else [];
        var stores := GenesisWrites(d, id, genesis, env);
        if |stores| == 2 {
          if env == Succeeds {
            SoundMore(d3, ListLedger(id, genesis), []);
            assert [ListLedger(id, genesis)] + [] == last;
          }
          SoundMore(d2, AddGenesis(id, genesis), last);
          SoundMore(d1, AddPvt(id), [AddGenesis(id, genesis)] + last);
          SoundMore(d, SetFlag(id), [AddPvt(id)] + ([AddGenesis(id, genesis)] + last));
          assert ws == [SetFlag(id)] + ([AddPvt(id)] + ([AddGenesis(id, genesis)] + last));
        } else {
          if |stores| == 1 {
            SoundMore(d1, AddPvt(id), []);
            assert [AddPvt(id)] + [] == stores;
          }
          SoundMore(d, SetFlag(id), stores);
          assert ws == [SetFlag(id)] + stores;
        }
      }
    }
  }

  /** Create may die after any of its writes. */
  lemma CreateSoundAtEveryCrash(d: Disk, genesis: Block, env: Env, n: nat)
    requires Sound(d) && d.flag == None && genesis.channel != Some("")
    ensures Sound(ApplyAll(d, Prefix(CreateWrites(d, genesis, env), n)))
  {
    CreationSound(d, genesis, env);
    SoundAtEveryCut(d, CreateWrites(d, genesis, env), n);
  }

  /** Recovery may die before or after its one write. Run to its end it leaves no flag, every ledger
      listed exactly when its genesis block is stored, no block lost, and nothing more to recover. */
  lemma RecoverySettles(d: Disk, n: nat)
    requires Sound(d)
    ensures var d' := ApplyAll(d, Prefix(RecoverWrites(d), n));
            && Sound(d') && d'.stores == d.stores && d'.pvt == d.pvt
            && (n >= |RecoverWrites(d)| ==> Settled(d') && RecoverWrites(d') == [])
  {
    var ws := RecoverWrites(d);
    if ws != [] && n > 0 {
      ApplyOne(d, ws, n);
      assert ws[1..] == [];
    }
  }

  // ---------- runs ----------

  /** What the process does, each with the number of writes after which it dies. */
  datatype Event = Create(genesis: Block, env: Env, writes: nat) | Recover(writes: nat)

  function WritesOf(d: Disk, e: Event): seq<Write> {
    var ws := if e.Create? then CreateWrites(d, e.genesis, e.env) else RecoverWrites(d);
    Prefix(ws, e.writes)
  }

  function Execute(d: Disk, events: seq<Event>): Disk
    decreases |events|
  {
    if events == [] then d else Execute(ApplyAll(d, WritesOf(d, events[0])), events[1..])
  }

  /** Creation starts only when no creation is left unfinished, and never for the empty id. */
  predicate Orderly(d: Disk, events: seq<Event>)
    decreases |events|
  {
    events == [] ||
    (&& (events[0].Create? ==> d.flag == None && events[0].genesis.channel != Some(""))
     && Orderly(ApplyAll(d, WritesOf(d, events[0])), events[1..]))
  }

  /** Over any orderly run with any crashes, a recovery that gets to its end settles the disk. */
  lemma {:induction false} EveryRunRecovers(d: Disk, events: seq<Event>, n: nat)
    requires Sound(d) && Orderly(d, events)
    ensures var d' := Execute(d, events);
            Sound(d') && (n >= |RecoverWrites(d')| ==> Settled(ApplyAll(d', Prefix(RecoverWrites(d'), n))))
    decreases |events|
  {
    if events == [] {
      RecoverySettles(d, n);
    } else {
      var e := events[0];
      if e.Create? {
        CreateSoundAtEveryCrash(d, e.genesis, e.env, e.writes);
      } else {
        RecoverySettles(d, e.writes);
      }
      EveryRunRecovers(ApplyAll(d, WritesOf(d, e)), events[1..], n);
    }
  }

  /** A failed creation leaves its flag. Starting another one overwrites it: the disk stays sound iff
      the first one had not stored its genesis block; otherwise that ledger is never listed. */
  lemma OverwrittenFlagSoundIff(d: Disk, id: string)
    requires Sound(d) && d.flag.Some? && id !in d.ledgers && id != "" && id != d.flag.value
    ensures Sound(Apply(d, SetFlag(id))) <==> StoreOf(d, d.flag.value) == []
  {
    if StoreOf(d, d.flag.value) != [] {
      assert d.flag.value in d.stores;
    }
  }

  /** Not listed, and not the ledger under construction. */
  predicate Lost(d: Disk, id: string, genesis: Block) {
    StoreOf(d, id) == [genesis] && id !in d.ledgers && d.flag != Some(id)
  }

  /** A write that neither stores nor lists the ledger. */
  predicate Passes(w: Write, id: string) {
    match w
    case SetFlag(_) => true
    case UnsetFlag => true
    case AddPvt(_) => true
    case AddGenesis(other, _) => other != id
    case ListLedger(other, _) => other != id
  }

  lemma {:induction false} PassingWrites(d: Disk, ws: seq<Write>, id: string)
    requires forall w | w in ws :: Passes(w, id)
    ensures var d' := ApplyAll(d, ws);
            && StoreOf(d', id) == StoreOf(d, id) && (id in d'.ledgers <==> id in d.ledgers) && d.pvt <= d'.pvt
            && ((forall w | w in ws :: w != SetFlag(id)) && d.flag != Some(id) ==> d'.flag != Some(id))
    decreases |ws|
  {
    if ws != [] {
      assert ws[0] in ws && forall w | w in ws[1..] :: w in ws;
      PassingWrites(Apply(d, ws[0]), ws[1..], id);
    }
  }

  lemma PrefixOf(ws: seq<Write>, n: nat)
    ensures forall w | w in Prefix(ws, n) :: w in ws
  {
  }

  lemma {:induction false} LostStays(d: Disk, id: string, genesis: Block, e: Event)
    requires Lost(d, id, genesis) && (e.Create? ==> e.genesis.channel != Some(id))
    ensures Lost(ApplyAll(d, WritesOf(d, e)), id, genesis)
  {
    var ws := if e.Create? then CreateWrites(d, e.genesis, e.env) else RecoverWrites(d);
    assert forall w | w in ws :: Passes(w, id) && w != SetFlag(id);
    PrefixOf(ws, e.writes);
    PassingWrites(d, WritesOf(d, e), id);
  }

  lemma {:induction false} LostForever(d: Disk, id: string, genesis: Block, events: seq<Event>)
    requires Lost(d, id, genesis) && forall e | e in events :: e.Create? ==> e.genesis.channel != Some(id)
    ensures Lost(Execute(d, events), id, genesis)
    decreases |events|
  {
    if events != [] {
      assert events[0] in events;
      LostStays(d, id, genesis, events[0]);
      LostForever(ApplyAll(d, WritesOf(d, events[0])), id, genesis, events[1..]);
    }
  }

  /** The disk after a list of writes, one by one. */
  lemma ApplyPrefix(d: Disk, ws: seq<Write>, w: Write, n: nat)
    requires n > 0 && ws != [] && ws[0] == w
    ensures ApplyAll(d, Prefix(ws, n)) == ApplyAll(Apply(d, w), Prefix(ws[1..], n - 1))
  {
    ApplyOne(d, ws, n);
  }

  /** A run that gets there, if the block store can store a block and report an error: a creation
      that fails so, and another one behind it, started without recovery. Whatever recoveries and
      creations of other ledgers follow, the first ledger has its block and is never listed. */
  lemma {:induction false} OverwrittenFlagLosesLedger(first: Block, second: Block, env: Env, n: nat, later: seq<Event>)
    requires first.channel.Some? && second.channel.Some? && first.channel != second.channel
    requires first.channel.value != "" && second.channel.value != "" && n > 0
    requires forall e | e in later :: e.Create? ==> e.genesis.channel != first.channel
    ensures var d := Execute(EMPTY, [Create(first, StoreFailsBehind, 3), Create(second, env, n)]);
            !Sound(d) && Lost(Execute(d, later), first.channel.value, first)
  {
    var id := first.channel.value;
    var e1, e2 := Create(first, StoreFailsBehind, 3), Create(second, env, n);
    var d1 := FailedBehind(first);
    var ws := CreateWrites(d1, second, env);
    var d2 := ApplyAll(d1, WritesOf(d1, e2));
    assert [e1, e2][1..] == [e2] && [e2][1..] == [];
    assert Execute(d1, [e2]) == Execute(d2, []);
    ApplyPrefix(d1, ws, SetFlag(second.channel.value), n);
    assert forall w | w in ws[1..] :: Passes(w, id) && w != SetFlag(id);
    PrefixOf(ws[1..], n - 1);
    PassingWrites(Apply(d1, SetFlag(second.channel.value)), Prefix(ws[1..], n - 1), id);
    assert Lost(d2, id, first) && id in d2.stores;
    LostForever(d2, id, first, later);
  }

  lemma FailedBehind(genesis: Block) returns (d: Disk)
    requires genesis.channel.Some?
    ensures d == ApplyAll(EMPTY, WritesOf(EMPTY, Create(genesis, StoreFailsBehind, 3)))
    ensures StoreOf(d, genesis.channel.value) == [genesis] && d.ledgers == map[] && d.flag == genesis.channel
  {
    var id := genesis.channel.value;
    var ws := CreateWrites(EMPTY, genesis, StoreFailsBehind);
    assert ws == [] + [SetFlag(id)] + [AddPvt(id)] + [AddGenesis(id, genesis)] && Prefix(ws, 3) == ws;
    ApplyLast(EMPTY, [], SetFlag(id));
    ApplyLast(EMPTY, [] + [SetFlag(id)], AddPvt(id));
    ApplyLast(EMPTY, [] + [SetFlag(id)] + [AddPvt(id)], AddGenesis(id, genesis));
    d := ApplyAll(EMPTY, ws);
  }

  // ---------- which channels can be created again ----------

  /** The private data store holds the genesis block, the block store does not. */
  predicate Barred(d: Disk, id: string) {
    id in d.pvt && id !in d.ledgers && StoreOf(d, id) == []
  }

  lemma {:induction false} BarredStays(d: Disk, id: string, e: Event)
    requires Barred(d, id)
    ensures Barred(ApplyAll(d, WritesOf(d, e)), id)
  {
    var ws := if e.Create? then CreateWrites(d, e.genesis, e.env) else RecoverWrites(d);
    assert forall w | w in ws :: Passes(w, id);
    PrefixOf(ws, e.writes);
    PassingWrites(d, WritesOf(d, e), id);
  }

  /** A barred channel stays barred over every run of creations, its own included, and recoveries. */
  lemma {:induction false} BarredForever(d: Disk, id: string, events: seq<Event>)
    requires Barred(d, id)
    ensures Barred(Execute(d, events), id)
    decreases |events|
  {
    if events != [] {
      BarredStays(d, id, events[0]);
      BarredForever(ApplyAll(d, WritesOf(d, events[0])), id, events[1..]);
    }
  }

  /** A channel that is not listed can be created, on a sound disk without a flag, exactly if its
      private data store is empty; otherwise the commit of its genesis block waits for ever. */
  lemma CreatableIff(d: Disk, genesis: Block)
    requires Sound(d) && d.flag == None && genesis.channel.Some? && genesis.channel.value !in d.ledgers
    ensures var id := genesis.channel.value;
            && (id in ApplyAll(d, CreateWrites(d, genesis, Succeeds)).ledgers <==> id !in d.pvt)
            && (Spins(d, id, Succeeds) <==> id in d.pvt)
  {
    var id, ws := genesis.channel.value, CreateWrites(d, genesis, Succeeds);
    NoStoreWithoutFlag(d, id);
    if id in d.pvt {
      assert ws == [SetFlag(id)] && ws[1..] == [];
    } else {
      assert ws == [SetFlag(id), AddPvt(id), AddGenesis(id, genesis)] + [ListLedger(id, genesis)];
      ApplyLast(d, ws[..3], ListLedger(id, genesis));
    }
  }

  lemma {:induction false} ApplyLast(d: Disk, ws: seq<Write>, w: Write)
    ensures ApplyAll(d, ws + [w]) == Apply(ApplyAll(d, ws), w)
    decreases |ws|
  {
    if ws == [] {
      assert [] + [w] == [w] && [w][1..] == [];
    } else {
      assert (ws + [w])[1..] == ws[1..] + [w];
      ApplyLast(Apply(d, ws[0]), ws[1..], w);
    }
  }

  /** The disk after n of the four writes of a creation. */
  function CutAfter(d: Disk, id: string, genesis: Block, n: nat): Disk {
    var d1 := Apply(d, SetFlag(id));
    var d2 := Apply(d1, AddPvt(id));
    var d3 := Apply(d2, AddGenesis(id, genesis));
    if n == 0 then d
    else if n == 1 then d1
    else if n == 2 then d2
    else if n == 3 then d3
    else Apply(d3, ListLedger(id, genesis))
  }

  lemma CutIs(d: Disk, id: string, genesis: Block, n: nat)
    requires genesis.channel == Some(id) && id !in d.ledgers && id !in d.pvt && StoreOf(d, id) == []
    ensures ApplyAll(d, Prefix(CreateWrites(d, genesis, Succeeds), n)) == CutAfter(d, id, genesis, n)
  {
    var ws := CreateWrites(d, genesis, Succeeds);
    assert ws == [SetFlag(id), AddPvt(id), AddGenesis(id, genesis), ListLedger(id, genesis)];
    var w1, w2, w3 := ws[1..], ws[2..], ws[3..];
    assert w1[1..] == w2 && w2[1..] == w3 && w3[1..] == [];
    if n > 0 {
      ApplyPrefix(d, ws, SetFlag(id), n);
      if n > 1 {
        ApplyPrefix(Apply(d, SetFlag(id)), w1, AddPvt(id), n - 1);
        if n > 2 {
          ApplyPrefix(CutAfter(d, id, genesis, 2), w2, AddGenesis(id, genesis), n - 2);
          if n > 3 {
            ApplyPrefix(CutAfter(d, id, genesis, 3), w3, ListLedger(id, genesis), n - 3);
          }
        }
      }
    }
  }

  /** A creation that dies after n of its writes, and a recovery that gets to its end: the ledger is
      listed if the genesis block was stored, the channel can be created again if not even the
      private data was, and in between, the process dying between the two stores, neither, whatever
      follows. */
  lemma {:induction false} CreationCutShort(d: Disk, genesis: Block, n: nat, later: seq<Event>)
    requires Sound(d) && d.flag == None && genesis.channel.Some? && genesis.channel.value != ""
    requires genesis.channel.value !in d.ledgers && genesis.channel.value !in d.pvt
    ensures var id, cut := genesis.channel.value, ApplyAll(d, Prefix(CreateWrites(d, genesis, Succeeds), n));
            var d' := ApplyAll(cut, RecoverWrites(cut));
            && Sound(d') && d'.flag == None
            && (id in d'.ledgers <==> n >= 3)
            && (id !in d'.ledgers && id !in d'.pvt <==> n <= 1)
            && (n == 2 ==> Barred(Execute(d', later), id))
  {
    var id := genesis.channel.value;
    NoStoreWithoutFlag(d, id);
    CutIs(d, id, genesis, n);
    CreateSoundAtEveryCrash(d, genesis, Succeeds, n);
    var cut := CutAfter(d, id, genesis, n);
    RecoverySettles(cut, 1);
    assert Prefix(RecoverWrites(cut), 1) == RecoverWrites(cut);
    var d' := ApplyAll(cut, RecoverWrites(cut));
    if n == 2 {
      BarredForever(d', id, later);
    }
  }

  // ---------- the code ----------

  /** Stuck: waiting for ever in the commit of the genesis block. */
  datatype Outcome = Created | Exists | NoChannel | Failed | Stuck | Died | Inconsistent | Recovered

  class Provider {
    var disk: Disk
    var writesLeft: nat

    constructor (d: Disk, writes: nat)
      ensures disk == d && writesLeft == writes
    {
      disk, writesLeft := d, writes;
    }

    /** One write to disk, if the process still lives. */
    method Put(w: Write) returns (alive: bool)
      modifies this
      ensures alive <==> old(writesLeft) > 0
      ensures if alive then disk == Apply(old(disk), w) && writesLeft == old(writesLeft) - 1
              else disk == old(disk) && writesLeft == 0
    {
      alive := writesLeft > 0;
      if alive {
        disk, writesLeft := Apply(disk, w), writesLeft - 1;
      }
    }

    /** CommitLegacy of the genesis block: private data store, then block store. Behind them come
        state and history, which opening the ledger brings up to the block store. */
    method CommitGenesis(id: string, genesis: Block, env: Env) returns (r: Outcome)
      requires env != OpenFails
      modifies this
      ensures var ws := GenesisWrites(old(disk), id, genesis, env);
              && disk == ApplyAll(old(disk), Prefix(ws, old(writesLeft)))
              && writesLeft == (if old(writesLeft) < |ws| then 0 else old(writesLeft) - |ws|)
              && r == (if Spins(old(disk), id, env) then Stuck
                       else if old(writesLeft) < |ws| then Died
                       else if env == Succeeds && |ws| == 2 then Created else Failed)
    {
      ghost var d, ws, n := disk, GenesisWrites(disk, id, genesis, env), writesLeft;
      if env == ValidationFails {
        return Failed;
      }
      if id in disk.pvt {
        return Stuck;
      }
      if env == PvtFails {
        return Failed;
      }
      var alive := Put(AddPvt(id));
      if !alive {
        return Died;
      }
      ApplyOne(d, ws, n);
      if env == StoreFails || StoreOf(disk, id) != [] {
        assert ws[1..] == [];
        return Failed;
      }
      alive := Put(AddGenesis(id, genesis));
      if alive {
        ApplyOne(Apply(d, ws[0]), ws[1..], n - 1);
        assert ws[1..][1..] == [];
      }
      r := if !alive then Died else if env == Succeeds then Created else Failed;
    }

    /** Create */
    method Create(genesis: Block, env: Env) returns (r: Outcome)
      modifies this
      ensures disk == ApplyAll(old(disk), Prefix(CreateWrites(old(disk), genesis, env), old(writesLeft)))
      ensures r == Died <==> old(writesLeft) < |CreateWrites(old(disk), genesis, env)|
      ensures r == Created <==> |CreateWrites(old(disk), genesis, env)| == 4 <= old(writesLeft)
      ensures r == Stuck <==>
                && genesis.channel.Some? && genesis.channel.value !in old(disk).ledgers
                && Spins(old(disk), genesis.channel.value, env) && old(writesLeft) > 0
    {
      ghost var d, ws, n := disk, CreateWrites(disk, genesis, env), writesLeft;
      if genesis.channel.None? {
        return NoChannel;
      }
      var id := genesis.channel.value;
      if id in disk.ledgers {
        return Exists;
      }
      var alive := Put(SetFlag(id));
      if !alive {
        return Died;
      }
      ApplyOne(d, ws, n);
      if env == OpenFails {
        alive := Put(UnsetFlag);
        if alive {
          ApplyOne(Apply(d, ws[0]), ws[1..], n - 1);
        }
        return if alive then Failed else Died;
      }
      ghost var d1, stores := disk, GenesisWrites(disk, id, genesis, env);
      assert stores == GenesisWrites(d, id, genesis, env);
      r := CommitGenesis(id, genesis, env);
      WritesBehindFlag(ws, id, stores, n);
      if r != Created {
        return;
      }
      alive := Put(ListLedger(id, genesis));
      ListedLast(d1, stores, ListLedger(id, genesis), n - 1);
      r := if alive then Created else Died;
    }

    lemma WritesBehindFlag(ws: seq<Write>, id: string, stores: seq<Write>, n: nat)
      requires n > 0 && ws != [] && stores <= ws[1..]
      ensures n - 1 <= |stores| || |stores| == |ws| - 1 ==> Prefix(ws[1..], n - 1) == Prefix(stores, n - 1)
    {
    }

    lemma ListedLast(d: Disk, stores: seq<Write>, w: Write, n: nat)
      requires |stores| <= n
      ensures ApplyAll(d, Prefix(stores + [w], n))
              == if n > |stores| then Apply(ApplyAll(d, stores), w) else ApplyAll(d, stores)
    {
      ApplyLast(d, stores, w);
      assert Prefix(stores + [w], n) == if n > |stores| then stores + [w] else stores;
    }

    /** recoverUnderConstructionLedger; it panics on a flagged ledger with more than its genesis block. */
    method RecoverUnderConstructionLedger() returns (r: Outcome)
      modifies this
      ensures disk == ApplyAll(old(disk), Prefix(RecoverWrites(old(disk)), old(writesLeft)))
      ensures r == Died <==> old(writesLeft) < |RecoverWrites(old(disk))|
      ensures r == Inconsistent ==> !Sound(old(disk))
    {
      var d := disk;
      if disk.flag.None? || disk.flag.value == "" {
        return Recovered;
      }
      var id := disk.flag.value;
      var store := StoreOf(disk, id);
      var alive;
      if |store| == 0 {
        alive := Put(UnsetFlag);
      } else if |store| == 1 {
        alive := Put(ListLedger(id, store[0]));
      } else {
        return Inconsistent;
      }
      r := if alive then Recovered else Died;
    }
  }
}
