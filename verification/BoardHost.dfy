/** class `DemoBoardHost` of python/demo_board.py: a log of what was configured and loaded, from
    which `ensure` rebuilds the chip after another design has run on it. */
module BoardHost {
  import opened Wrappers
  import opened Loads

  type Engine = e: nat | e < 2

  // configurations

  /** The configuration's fields in register order; "" is a reserved register. */
  const FIELDS: seq<string> := [
    "side_set_count", "side_set_base", "side_set_pindirs", "in_base", "in_count", "out_base",
    "out_count", "set_base", "set_count", "jmp_pin", "capture_pin", "capture_rising",
    "in_shift_right", "out_shift_right", "autopush", "push_threshold", "autopull",
    "pull_threshold", "crc_width", "crc_poly", "crc_init", "crc_reflect",
    "stuff_threshold", "stuff_level", "wrap_bottom", "wrap_top", "period_fraction",
    "", "", "autopull_data", "manchester", "line_code", "route", "crc_poly_high",
    "crc_init_high", "crc_complement"]

  type Config = map<string, int>

  type Registers = map<nat, int>

  /** What configuring writes: every field, zero where the configuration leaves it out. */
  function Writes(config: Config): (writes: Registers)
    ensures forall n :: n in writes <==> 0 <= n < |FIELDS| && FIELDS[n] != ""
  {
    map n: nat | n < |FIELDS| && FIELDS[n] != "" :: if FIELDS[n] in config then config[FIELDS[n]] else 0
  }

  /** Each field's register holds the field, 0 where the configuration leaves it out. */
  ghost predicate AreConfigured(registers: Registers, config: Config) {
    forall n: nat :: n < |FIELDS| && FIELDS[n] != "" ==>
      n in registers && registers[n] == if FIELDS[n] in config then config[FIELDS[n]] else 0
  }

  /** The registers once an engine has been configured so, or not at all, since its reset. */
  function Configured(config: Option<Config>): Registers {
    if config.Some? then Writes(map[]) + Writes(config.value) else Writes(map[])
  }

  lemma LastConfigCounts(before: Option<Config>, config: Config)
    ensures Configured(before) + Writes(config) == Configured(Some(config))
  {
  }

  // the chip

  datatype Core = Core(registers: Registers, program: Memory)

  datatype Chip = Chip(first: Core, second: Core, data: Memory, selected: Engine)

  function CoreOf(c: Chip, e: Engine): Core {
    if e == 0 then c.first else c.second
  }

  function WithCore(c: Chip, e: Engine, core: Core): Chip {
    if e == 0 then c.(first := core) else c.(second := core)
  }

  /** What was asked of the chip over its whole life, as if nothing had intervened. */
  datatype Kept = Kept(config: Option<Config>, loads: Log)

  datatype History = History(first: Kept, second: Kept, data: Log, engine: Engine)

  const NOTHING: Kept := Kept(None, [])

  function KeptOf(h: History, e: Engine): Kept {
    if e == 0 then h.first else h.second
  }

  function WithKept(h: History, e: Engine, kept: Kept): History {
    if e == 0 then h.(first := kept) else h.(second := kept)
  }

  /** The engine is as its whole history left it, from some memory it powered up with. */
  ghost predicate CoreHolds(core: Core, kept: Kept) {
    core.registers == Configured(kept.config) && exists m: Memory :: core.program == Programmed(m, kept.loads)
  }

  ghost predicate Holds(c: Chip, h: History) {
    && CoreHolds(c.first, h.first) && CoreHolds(c.second, h.second)
    && (exists m: Memory :: c.data == Written(m, h.data))
    && c.selected == h.engine
  }

  /** Of a chip that holds its history every word that a load has written is the one that was written
      last, and every register that of the last configuration. */
  lemma HeldIsTold(c: Chip, h: History, e: Engine)
    requires Holds(c, h)
    ensures forall at: nat, n: nat, k: nat :: WroteLast(KeptOf(h, e).loads, true, at, n, k) ==>
              at < WORDS && CoreOf(c, e).program[at] == WordOf(KeptOf(h, e).loads[n], k)
    ensures forall at: nat, n: nat, k: nat :: WroteLast(h.data, false, at, n, k) ==>
              at < WORDS && c.data[at] == WordOf(h.data[n], k)
    ensures KeptOf(h, e).config.Some? ==> AreConfigured(CoreOf(c, e).registers, KeptOf(h, e).config.value)
  {
    var loads := KeptOf(h, e).loads;
    var m: Memory :| CoreOf(c, e).program == Programmed(m, loads);
    var d: Memory :| c.data == Written(d, h.data);
    forall at: nat, n: nat, k: nat | WroteLast(loads, true, at, n, k)
      ensures at < WORDS && CoreOf(c, e).program[at] == WordOf(loads[n], k)
    {
      AfterIs(m, loads, true, at, n, k);
    }
    forall at: nat, n: nat, k: nat | WroteLast(h.data, false, at, n, k)
      ensures at < WORDS && c.data[at] == WordOf(h.data[n], k)
    {
      AfterIs(d, h.data, false, at, n, k);
    }
  }

  /** A chip whose memories hold just anything, as after losing power, its registers reset. */
  ghost predicate IsReset(c: Chip) {
    c.first.registers == Writes(map[]) == c.second.registers && c.selected == 0
  }

  /** The board: which design is enabled, how many times one was, and whether the chip is
      clocked and out of reset. Losing power leaves the chip with whatever `chip` then says. */
  class Board {
    var chip: Chip
    var ours: bool
    var clocked: bool
    var enables: nat

    constructor (chip: Chip)
      ensures !ours && !clocked && enables == 0
    {
      this.chip, ours, clocked, enables := chip, false, false, 0;
    }

    /** Another design is enabled, or ours by other means: the callback counts it. */
    method Enable(ours: bool, chip: Chip)
      modifies this
      ensures this.ours == ours && !clocked && this.chip == chip && enables == old(enables) + 1
    {
      this.ours, clocked, this.chip, enables := ours, false, chip, enables + 1;
    }

    /** A register write lands if our design is there and clocked. */
    method Land(chip: Chip)
      modifies this`chip
      ensures this.chip == if clocked then chip else old(this.chip)
    {
      if clocked { this.chip := chip; }
    }
  }

  datatype Pins = Missing | Refused | PinHigh | Good

  /** class `DemoBoardSpi`, as far as selecting goes. */
  class DemoBoardSpi {
    const board: Board
    var enables: nat

    constructor (board: Board)
      ensures this.board == board && enables == 0
    {
      this.board, enables := board, 0;
    }

    /** Enables, checks the pins and resets; `lost` and `reset` are what the chip powers up with
        and holds once reset. Stops at the first thing wrong: at the pins, after noting the count. */
    method Select(pins: Pins, lost: Chip, reset: Chip) returns (ok: bool)
      requires IsReset(reset)
      modifies this, board
      ensures ok <==> pins.Good?
      ensures pins.Missing? || pins.Refused? ==> unchanged(this) && unchanged(board)
      ensures pins.PinHigh? || pins.Good? ==> board.ours && enables == board.enables == old(board.enables) + 1
      ensures pins.PinHigh? ==> !board.clocked && board.chip == lost
      ensures pins.Good? ==> board.clocked && board.chip == reset
    {
      if pins.Missing? || pins.Refused? { return false; }
      board.Enable(true, lost);
      enables := board.enables;
      if pins.PinHigh? { return false; }
      board.clocked, board.chip := true, reset;
      return true;
    }

    predicate Selected()
      reads this, board
    {
      board.enables == enables && board.ours
    }
  }

  type Engines = map<Engine, Kept>

  function LogAt(engines: Engines, e: Engine): Kept {
    if e in engines then engines[e] else NOTHING
  }

  /** What the host has noted is the history, its loads compacted. */
  ghost predicate Notes(engine: Engine, engines: Engines, data: Log, h: History) {
    && engine == h.engine && data == h.data
    && LogAt(engines, 0) == CompactedKept(h.first) && LogAt(engines, 1) == CompactedKept(h.second)
  }

  lemma NotesMore(engine: Engine, engines: Engines, data: Log, h: History, noted: Kept, kept: Kept)
    requires Notes(engine, engines, data, h) && noted == CompactedKept(kept)
    ensures Notes(engine, engines[engine := noted], data, WithKept(h, engine, kept))
  {
  }

  class DemoBoardHost {
    const spi: DemoBoardSpi
    const board: Board
    var engine: Engine
    var engines: Engines
    var data: Log
    ghost var history: History

    /** The log is the history compacted, and while the chip is clocked nothing was enabled since
        our last select and it holds the history. */
    ghost predicate Valid()
      reads this, spi, board
    {
      && board == spi.board && Notes(engine, engines, data, history)
      && spi.enables <= board.enables
      && (board.clocked ==> board.ours && spi.enables == board.enables && Holds(board.chip, history))
    }

    constructor (spi: DemoBoardSpi)
      requires spi.board.clocked && spi.board.ours && spi.enables == spi.board.enables && IsReset(spi.board.chip)
      ensures Valid() && this.spi == spi && history == History(NOTHING, NOTHING, [], 0)
    {
      this.spi, board, engine, engines, data := spi, spi.board, 0, map[], [];
      history := History(NOTHING, NOTHING, [], 0);
      new;
      FreshHolds(board.chip);
    }

    method Select(e: Engine)
      requires Valid()
      modifies this, board
      ensures Valid() && history == old(history).(engine := e) && engine == e
      ensures board.chip == if board.clocked then old(board.chip).(selected := e) else old(board.chip)
      ensures board.clocked == old(board.clocked) && spi.Selected() == old(spi.Selected())
    {
      engine := e;
      history := history.(engine := e);
      board.Land(board.chip.(selected := e));
    }

    method Configure(config: Config)
      requires Valid()
      modifies this, board
      ensures Valid() && history == AfterConfigure(old(history), config)
      ensures engine == old(engine)
      ensures if board.clocked then ConfigLands(old(board.chip), board.chip, engine, config)
              else board.chip == old(board.chip)
      ensures board.clocked == old(board.clocked) && spi.Selected() == old(spi.Selected())
    {
      ghost var kept := KeptOf(history, engine);
      ghost var more := kept.(config := Some(config));
      NotesMore(engine, engines, data, history, LogAt(engines, engine).(config := Some(config)), more);
      engines := engines[engine := LogAt(engines, engine).(config := Some(config))];
      if board.clocked {
        ConfigureKeepsHolding(board.chip, history, config);
        ConfiguredChipIs(board.chip, config);
      }
      board.Land(ConfiguredChip(board.chip, config));
      history := AfterConfigure(history, config);
    }

    /** A load at 0 zero-fills the rest, so it replaces every earlier load. */
    method LoadProgram(l: Load)
      requires Valid()
      modifies this, board
      ensures Valid() && history == AfterLoad(old(history), l)
      ensures engine == old(engine)
      ensures board.chip == if board.clocked then LoadedChip(old(board.chip), l) else old(board.chip)
      ensures board.clocked ==> old(board.chip).selected == engine
      ensures board.clocked == old(board.clocked) && spi.Selected() == old(spi.Selected())
    {
      var log := LogAt(engines, engine);
      LoadNoted(engine, engines, data, history, l);
      if board.clocked {
        LoadHolds(board.chip, history, l);
      }
      engines := engines[engine := log.(loads := Noted(log.loads, l))];
      board.Land(LoadedChip(board.chip, l));
      history := AfterLoad(history, l);
    }

    method LoadData(l: Load)
      requires Valid()
      modifies this, board
      ensures Valid() && history == old(history).(data := old(history).data + [l])
      ensures engine == old(engine)
      ensures if board.clocked then DataLands(old(board.chip), board.chip, l) else board.chip == old(board.chip)
      ensures board.clocked == old(board.clocked) && spi.Selected() == old(spi.Selected())
    {
      data := data + [l];
      if board.clocked {
        DataGrows(board.chip.data, history.data, l);
        LandedLands(board.chip.data, l, false);
      }
      board.Land(board.chip.(data := Stored(board.chip.data, l)));
      history := history.(data := history.data + [l]);
    }

    /** Replays the log onto a chip in reset. */
    method Reload()
      requires board == spi.board && Notes(engine, engines, data, history)
      requires board.clocked && IsReset(board.chip)
      modifies board`chip
      ensures Holds(board.chip, history)
    {
      ghost var start := board.chip;
      var e := 0;
      while e < 2
        invariant 0 <= e <= 2
        invariant CoreReloaded(board.chip.first, start.first, if e > 0 then LogAt(engines, 0) else NOTHING)
        invariant CoreReloaded(board.chip.second, start.second, if e > 1 then LogAt(engines, 1) else NOTHING)
        invariant board.chip.data == start.data
      {
        if e in engines {
          ReloadEngine(e);
        }
        e := e + 1;
      }
      ReloadData();
      board.chip := board.chip.(selected := engine);
      ReloadedHolds(start.first, board.chip.first, history.first);
      ReloadedHolds(start.second, board.chip.second, history.second);
    }

    method ReloadEngine(e: Engine)
      requires e in engines
      modifies board`chip
      ensures board.chip.data == old(board.chip.data)
      ensures CoreOf(board.chip, 1 - e) == CoreOf(old(board.chip), 1 - e)
      ensures var core := CoreOf(old(board.chip), e);
        CoreOf(board.chip, e)
          == Core(if engines[e].config.Some? then core.registers + Writes(engines[e].config.value) else core.registers,
                                      Programmed(core.program, engines[e].loads))
    {
      board.chip := board.chip.(selected := e);
      var core := CoreOf(board.chip, e);
      if engines[e].config.Some? {
        core := ConfiguredCore(core, engines[e].config.value);
      }
      ghost var program := core.program;
      var n := 0;
      var loads := engines[e].loads;
      while n < |loads|
        invariant 0 <= n <= |loads| && core == core.(program := Programmed(program, loads[..n]))
        invariant core.registers
                  == if engines[e].config.Some? then
                    CoreOf(old(board.chip), e).registers + Writes(engines[e].config.value)
                                    else CoreOf(old(board.chip), e).registers
      {
        assert loads[..n + 1][..n] == loads[..n];
        core := LoadedCore(core, loads[n]);
        n := n + 1;
      }
      assert loads[..n] == loads;
      board.chip := WithCore(board.chip, e, core);
    }

    method ReloadData()
      modifies board`chip
      ensures board.chip == old(board.chip).(data := Written(old(board.chip).data, data))
    {
      var n := 0;
      while n < |data|
        invariant 0 <= n <= |data|
        invariant board.chip == old(board.chip).(data := Written(old(board.chip).data, data[..n]))
      {
        assert data[..n + 1][..n] == data[..n];
        board.chip := board.chip.(data := Stored(board.chip.data, data[n]));
        n := n + 1;
      }
      assert data[..n] == data;
    }

    /** Selects our design again, and rebuilds it from the log if that went well. */
    method Reselect(pins: Pins, lost: Chip, reset: Chip) returns (ok: bool)
      requires Valid() && IsReset(reset)
      modifies spi, board
      ensures Valid() && (ok <==> pins.Good?)
      ensures ok ==> board.clocked && Holds(board.chip, history)
      ensures pins.PinHigh? ==> board.chip == lost
      ensures Standing(spi.Selected(), board.clocked)
              == Selecting(Standing(old(spi.Selected()), old(board.clocked)), pins)
    {
      ok := spi.Select(pins, lost, reset);
      if ok { Reload(); }
    }

    /** Reselects and reloads if another design ran since the last select; whether it did. None
        if the select failed. Afterwards the chip holds the history, unless nothing else was
        enabled since a select that stopped at the pins: then it is left as it powered up. */
    method Ensure(pins: Pins, lost: Chip, reset: Chip) returns (did: Option<bool>)
      requires Valid() && IsReset(reset)
      modifies spi, board
      ensures Valid()
      ensures did == if old(spi.Selected()) then Some(false) else if pins.Good? then Some(true) else None
      ensures did.Some? && (old(board.clocked) || !old(spi.Selected())) ==> board.clocked && Holds(board.chip, history)
      ensures old(spi.Selected())
              ==> spi.Selected() && board.chip == old(board.chip) && board.clocked == old(board.clocked)
      ensures did == None && pins.PinHigh? ==> board.chip == lost
      ensures !old(spi.Selected()) ==>
                Standing(spi.Selected(), board.clocked)
                  == Selecting(Standing(old(spi.Selected()), old(board.clocked)), pins)
    {
      if spi.Selected() { return Some(false); }
      var ok := Reselect(pins, lost, reset);
      return if ok then Some(true) else None;
    }
  }

  function AfterConfigure(h: History, config: Config): History {
    WithKept(h, h.engine, KeptOf(h, h.engine).(config := Some(config)))
  }

  function AfterLoad(h: History, l: Load): History
  {
    var kept := KeptOf(h, h.engine); WithKept(h, h.engine, kept.(loads := kept.loads + [l]))
  }

  lemma LoadNoted(engine: Engine, engines: Engines, data: Log, h: History, l: Load)
    requires Notes(engine, engines, data, h)
    ensures var log := LogAt(engines, engine);
      Notes(engine, engines[engine := log.(loads := Noted(log.loads, l))], data, AfterLoad(h, l))
  {
    var kept, log := KeptOf(h, engine), LogAt(engines, engine);
    CompactedMore(kept.loads, l);
    NotesMore(engine, engines, data, h, log.(loads := Noted(log.loads, l)), kept.(loads := kept.loads + [l]));
  }

  /** A configuration or a load as the selected engine takes it. */
  function ConfiguredChip(c: Chip, config: Config): Chip {
    WithCore(c, c.selected, ConfiguredCore(CoreOf(c, c.selected), config))
  }

  function LoadedChip(c: Chip, l: Load): Chip
  {
    WithCore(c, c.selected, LoadedCore(CoreOf(c, c.selected), l))
  }

  /** Only engine e's registers change, to those of the configuration. */
  ghost predicate ConfigLands(before: Chip, after: Chip, e: Engine, config: Config) {
    && AreConfigured(CoreOf(after, e).registers, config) && CoreOf(after, e).program == CoreOf(before, e).program
    && CoreOf(after, 1 - e) == CoreOf(before, 1 - e)
    && after.data == before.data && after.selected == before.selected
  }

  /** Only engine e's program changes, where the load's words and zeros land. */
  ghost predicate ProgramLands(before: Chip, after: Chip, e: Engine, l: Load) {
    && LoadLands(CoreOf(before, e).program, CoreOf(after, e).program, l, true)
    && CoreOf(after, e).registers == CoreOf(before, e).registers
    && CoreOf(after, 1 - e) == CoreOf(before, 1 - e)
    && after.data == before.data && after.selected == before.selected
  }

  /** Only the data changes, where the load's words land. */
  ghost predicate DataLands(before: Chip, after: Chip, l: Load) {
    LoadLands(before.data, after.data, l, false) && after == before.(data := after.data)
  }

  lemma ConfiguredChipIs(c: Chip, config: Config)
    ensures ConfigLands(c, ConfiguredChip(c, config), c.selected, config)
  {
  }

  lemma LoadedChipIs(c: Chip, l: Load)
    ensures ProgramLands(c, LoadedChip(c, l), c.selected, l)
  {
    LandedLands(CoreOf(c, c.selected).program, l, true);
  }

  lemma ConfigureKeepsHolding(c: Chip, h: History, config: Config)
    requires Holds(c, h)
    ensures Holds(ConfiguredChip(c, config), AfterConfigure(h, config))
  {
    var kept := KeptOf(h, h.engine);
    ConfigureHolds(CoreOf(c, c.selected), kept, config);
    HoldsWith(c, h, ConfiguredCore(CoreOf(c, c.selected), config), kept.(config := Some(config)));
  }

  lemma LoadHolds(c: Chip, h: History, l: Load)
    requires Holds(c, h)
    ensures Holds(LoadedChip(c, l), AfterLoad(h, l))
  {
    var kept := KeptOf(h, h.engine);
    ProgramGrows(CoreOf(c, c.selected), kept, l);
    HoldsWith(c, h, LoadedCore(CoreOf(c, c.selected), l), kept.(loads := kept.loads + [l]));
  }

  /** The log replayed onto a core. */
  ghost predicate CoreReloaded(core: Core, start: Core, log: Kept) {
    && core.registers == (if log.config.Some? then start.registers + Writes(log.config.value) else start.registers)
    && core.program == Programmed(start.program, log.loads)
  }

  lemma ReloadedHolds(start: Core, core: Core, kept: Kept)
    requires start.registers == Writes(map[]) && CoreReloaded(core, start, CompactedKept(kept))
    ensures CoreHolds(core, kept)
  {
    CompactedReplays(start.program, kept.loads);
  }

  function CompactedKept(kept: Kept): Kept {
    kept.(loads := Compacted(kept.loads))
  }

  lemma FreshHolds(c: Chip)
    requires IsReset(c)
    ensures Holds(c, History(NOTHING, NOTHING, [], 0))
  {
    assert c.first.program == Programmed(c.first.program, []);
    assert c.second.program == Programmed(c.second.program, []);
    assert c.data == Written(c.data, []);
  }

  lemma CompactedMore(history: Log, l: Load)
    ensures Compacted(history + [l]) == Noted(Compacted(history), l)
  {
    assert (history + [l])[..|history|] == history;
  }

  function ConfiguredCore(core: Core, config: Config): Core {
    core.(registers := core.registers + Writes(config))
  }

  function LoadedCore(core: Core, l: Load): Core
  {
    core.(program := Loaded(core.program, l))
  }

  lemma ConfigureHolds(core: Core, kept: Kept, config: Config)
    requires CoreHolds(core, kept)
    ensures CoreHolds(ConfiguredCore(core, config), kept.(config := Some(config)))
  {
    LastConfigCounts(kept.config, config);
  }

  /** Changing the selected engine and its history together. */
  lemma HoldsWith(c: Chip, h: History, core: Core, kept: Kept)
    requires Holds(c, h) && CoreHolds(core, kept)
    ensures Holds(WithCore(c, c.selected, core), WithKept(h, h.engine, kept))
  {
  }

  lemma ProgramGrows(core: Core, kept: Kept, l: Load)
    requires CoreHolds(core, kept)
    ensures CoreHolds(LoadedCore(core, l), kept.(loads := kept.loads + [l]))
  {
    var m: Memory :| core.program == Programmed(m, kept.loads);
    assert (kept.loads + [l])[..|kept.loads|] == kept.loads;
    assert Loaded(core.program, l) == Programmed(m, kept.loads + [l]);
  }

  lemma DataGrows(memory: Memory, log: Log, l: Load)
    requires exists m: Memory :: memory == Written(m, log)
    ensures exists m: Memory :: Stored(memory, l) == Written(m, log + [l])
  {
    var m: Memory :| memory == Written(m, log);
    assert (log + [l])[..|log|] == log;
    assert Stored(memory, l) == Written(m, log + [l]);
  }

  // whole runs

  datatype Call =
    | ToEngine(e: Engine)
    | ToConfigure(config: Config)
    | ToLoad(load: Load)
    | ToStore(load: Load)
    | ToEnsure(pins: Pins, lost: Chip, reset: Chip)
    | ToReselect(pins: Pins, lost: Chip, reset: Chip)
    | Elsewhere(ours: bool, lost: Chip)

  ghost predicate CanBe(call: Call) {
    match call
    case ToEnsure(_, _, reset) => IsReset(reset)
    case ToReselect(_, _, reset) => IsReset(reset)
    case _ => true
  }

  /** What a call asks of the chip; designs enabled elsewhere and selects ask nothing. */
  ghost function Asked(h: History, call: Call): History
    requires CanBe(call)
  {
    match call
    case ToEngine(e) => h.(engine := e)
    case ToConfigure(config) => AfterConfigure(h, config)
    case ToLoad(l) => AfterLoad(h, l)
    case ToStore(l) => h.(data := h.data + [l])
    case _ => h
  }

  ghost function AskedAll(h: History, calls: seq<Call>): History
    requires forall i :: 0 <= i < |calls| ==> CanBe(calls[i])
  {
    if calls == [] then h else Asked(AskedAll(h, calls[..|calls| - 1]), calls[|calls| - 1])
  }

  // who stands where

  /** Whether our design counts as selected, and whether it is clocked. */
  datatype Standing = Standing(selected: bool, clocked: bool)

  /** A select that stops before enabling changes nothing, one that stops at the pins has noted the
      enable but not clocked the design. */
  function Selecting(s: Standing, pins: Pins): Standing {
    match pins
    case Missing => s
    case Refused => s
    case PinHigh => Standing(true, false)
    case Good => Standing(true, true)
  }

  function StandsAfter(s: Standing, call: Call): Standing {
    match call
    case ToEnsure(pins, _, _) => if s.selected then s else Selecting(s, pins)
    case ToReselect(pins, _, _) => Selecting(s, pins)
    case Elsewhere(_, _) => Standing(false, false)
    case _ => s
  }

  function StandsAfterAll(s: Standing, calls: seq<Call>): Standing {
    if calls == [] then s else StandsAfter(StandsAfterAll(s, calls[..|calls| - 1]), calls[|calls| - 1])
  }

  /** The last select that enabled our design stopped at the pins, and nothing was enabled since. */
  predicate Stranded(s: Standing, calls: seq<Call>) {
    StandsAfterAll(s, calls) == Standing(true, false)
  }

  /** Call i is a select that was made and stopped at the pins. */
  predicate StopsAtPins(s: Standing, calls: seq<Call>, i: nat)
    requires i < |calls|
  {
    (calls[i].ToReselect? || (calls[i].ToEnsure? && !StandsAfterAll(s, calls[..i]).selected)) && calls[i].pins.PinHigh?
  }

  /** A call that leaves a stranded chip stranded. */
  predicate LeavesIt(call: Call) {
    !call.Elsewhere? && (call.ToReselect? ==> call.pins.Missing? || call.pins.Refused?)
  }

  /** From a chip that is not stranded, it is stranded exactly if some select stopped at the pins
      and no call since enabled anything. */
  lemma {:induction false} StrandedExactly(s: Standing, calls: seq<Call>)
    requires s != Standing(true, false)
    ensures Stranded(s, calls) <==>
            exists i: nat :: i < |calls| && StopsAtPins(s, calls, i)
              && forall j :: i < j < |calls| ==> LeavesIt(calls[j])
  {
    if calls != [] {
      var n := |calls| - 1;
      var front := calls[..n];
      StrandedExactly(s, front);
      if Stranded(s, calls) {
        if Stranded(s, front) && !StopsAtPins(s, calls, n) {
          var i: nat :| i < |front| && StopsAtPins(s, front, i) && forall j :: i < j < |front| ==> LeavesIt(front[j]);
          assert calls[..i] == front[..i];
          assert LeavesIt(calls[n]);
          assert StopsAtPins(s, calls, i) && forall j :: i < j < |calls| ==> LeavesIt(calls[j]);
        } else {
          assert StopsAtPins(s, calls, n);
        }
      }
      if i: nat :| i < |calls| && StopsAtPins(s, calls, i) && forall j :: i < j < |calls| ==> LeavesIt(calls[j]) {
        if i < n {
          assert calls[..i] == front[..i];
          assert StopsAtPins(s, front, i) && forall j :: i < j < |front| ==> LeavesIt(front[j]);
        }
      }
    }
  }

  // what the calls leave on the chip

  /** Engine e is the one selected when call n is made. */
  ghost predicate SelectedAt(start: Engine, calls: seq<Call>, n: nat, e: Engine) {
    && n <= |calls|
    && ((start == e && forall j :: 0 <= j < n ==> !calls[j].ToEngine?)
        || exists i: nat :: SelectsLast(calls, n, e, i))
  }

  /** Of the first n calls, call i is the last that selects an engine. */
  ghost predicate SelectsLast(calls: seq<Call>, n: nat, e: Engine, i: nat) {
    i < n <= |calls| && calls[i] == ToEngine(e) && forall j :: i < j < n ==> !calls[j].ToEngine?
  }

  /** Call n loads engine e's program. */
  ghost predicate LoadsEngine(start: Engine, calls: seq<Call>, e: Engine, n: nat) {
    n < |calls| && calls[n].ToLoad? && SelectedAt(start, calls, n, e)
  }

  /** Word k of call n's load is the last that the calls write at this place of e's program. */
  ghost predicate LoadedLast(start: Engine, calls: seq<Call>, e: Engine, at: nat, n: nat, k: nat) {
    && LoadsEngine(start, calls, e, n) && WritesLastAt(calls[n].load, true, k, at)
    && forall m: nat :: n < m && LoadsEngine(start, calls, e, m) ==> WritesNowhere(calls[m].load, true, at)
  }

  /** Word k of call n's load is the last that the calls write at this place of the data. */
  ghost predicate StoredLast(calls: seq<Call>, at: nat, n: nat, k: nat) {
    && n < |calls| && calls[n].ToStore? && WritesLastAt(calls[n].load, false, k, at)
    && forall m: nat :: n < m < |calls| && calls[m].ToStore? ==> WritesNowhere(calls[m].load, false, at)
  }

  /** Call n is the last that configures engine e. */
  ghost predicate ConfiguredLast(start: Engine, calls: seq<Call>, e: Engine, n: nat) {
    && n < |calls| && calls[n].ToConfigure? && SelectedAt(start, calls, n, e)
    && forall m: nat :: n < m < |calls| && calls[m].ToConfigure? ==> !SelectedAt(start, calls, m, e)
  }

  /** The chip's program and data words are those the calls wrote last, its registers those of the last
      configurations, and the engine selected last is. */
  ghost predicate Tells(c: Chip, start: Engine, calls: seq<Call>) {
    && TellsPrograms(c, start, calls) && TellsData(c, calls) && TellsConfigs(c, start, calls)
    && SelectedAt(start, calls, |calls|, c.selected)
  }

  ghost predicate TellsPrograms(c: Chip, start: Engine, calls: seq<Call>) {
    forall e: Engine, at: nat, n: nat, k: nat :: LoadedLast(start, calls, e, at, n, k) ==>
      at < WORDS && CoreOf(c, e).program[at] == WordOf(calls[n].load, k)
  }

  ghost predicate TellsData(c: Chip, calls: seq<Call>) {
    forall at: nat, n: nat, k: nat :: StoredLast(calls, at, n, k) ==>
      at < WORDS && c.data[at] == WordOf(calls[n].load, k)
  }

  ghost predicate TellsConfigs(c: Chip, start: Engine, calls: seq<Call>) {
    forall e: Engine, n: nat :: ConfiguredLast(start, calls, e, n) ==>
      AreConfigured(CoreOf(c, e).registers, calls[n].config)
  }

  /** Before the last call, what holds of the calls holds of those before it. */
  lemma SelectedBefore(start: Engine, calls: seq<Call>, n: nat, e: Engine)
    requires calls != [] && n < |calls|
    ensures SelectedAt(start, calls, n, e) <==> SelectedAt(start, calls[..|calls| - 1], n, e)
  {
    var front := calls[..|calls| - 1];
    forall i: nat ensures SelectsLast(calls, n, e, i) <==> SelectsLast(front, n, e, i) {
      assert forall j :: 0 <= j < n ==> front[j] == calls[j];
    }
    assert forall j :: 0 <= j < n ==> front[j] == calls[j];
  }

  lemma {:induction false} EngineIsSelected(h: History, calls: seq<Call>, e: Engine)
    requires forall i :: 0 <= i < |calls| ==> CanBe(calls[i])
    ensures SelectedAt(h.engine, calls, |calls|, e) <==> AskedAll(h, calls).engine == e
  {
    if calls != [] {
      var last := |calls| - 1;
      EngineIsSelected(h, calls[..last], e);
      SelectedBefore(h.engine, calls, last, e);
      OneMoreCall(h.engine, calls, e);
    }
  }

  lemma OneMoreCall(start: Engine, calls: seq<Call>, e: Engine)
    requires calls != []
    ensures var last := |calls| - 1;
      SelectedAt(start, calls, |calls|, e)
      <==> if calls[last].ToEngine? then calls[last].e == e else SelectedAt(start, calls, last, e)
  {
    var last := |calls| - 1;
    if calls[last].ToEngine? {
      if calls[last].e == e { assert SelectsLast(calls, |calls|, e, last); }
    } else {
      forall i: nat ensures SelectsLast(calls, |calls|, e, i) <==> SelectsLast(calls, last, e, i) {}
    }
  }

  lemma {:induction false} ProgramTold(h: History, calls: seq<Call>, e: Engine, m: Memory, at: nat, n: nat, k: nat)
    requires (forall i :: 0 <= i < |calls| ==> CanBe(calls[i])) && LoadedLast(h.engine, calls, e, at, n, k)
    ensures at < WORDS
    ensures Programmed(m, KeptOf(AskedAll(h, calls), e).loads)[at] == WordOf(calls[n].load, k)
  {
    var last := |calls| - 1;
    var front := calls[..last];
    LoadedOrNot(h, calls, e, m);
    var before := Programmed(m, KeptOf(AskedAll(h, front), e).loads);
    if n < last {
      LoadedBefore(h.engine, calls, e, at, n, k);
      ProgramTold(h, front, e, m, at, n, k);
    }
    if LoadsEngine(h.engine, calls, e, last) {
      LandedIs(before, calls[last].load, true, at);
    }
  }

  /** The last call changes engine e's program exactly if it loads it. */
  lemma LoadedOrNot(h: History, calls: seq<Call>, e: Engine, m: Memory)
    requires (forall i :: 0 <= i < |calls| ==> CanBe(calls[i])) && calls != []
    ensures var last := |calls| - 1; var before := Programmed(m, KeptOf(AskedAll(h, calls[..last]), e).loads);
      Programmed(m, KeptOf(AskedAll(h, calls), e).loads)
      == if LoadsEngine(h.engine, calls, e, last) then Landed(before, calls[last].load, true) else before
  {
    var last := |calls| - 1;
    EngineIsSelected(h, calls[..last], e);
    SelectedBefore(h.engine, calls, last, e);
    if LoadsEngine(h.engine, calls, e, last) {
      AfterMore(m, KeptOf(AskedAll(h, calls[..last]), e).loads, calls[last].load, true);
    }
  }

  lemma LoadedBefore(start: Engine, calls: seq<Call>, e: Engine, at: nat, n: nat, k: nat)
    requires LoadedLast(start, calls, e, at, n, k) && n < |calls| - 1
    ensures LoadedLast(start, calls[..|calls| - 1], e, at, n, k)
    ensures LoadsEngine(start, calls, e, |calls| - 1) ==> WritesNowhere(calls[|calls| - 1].load, true, at)
  {
    var front := calls[..|calls| - 1];
    forall m: nat | m < |front| ensures LoadsEngine(start, front, e, m) <==> LoadsEngine(start, calls, e, m) {
      SelectedBefore(start, calls, m, e);
    }
  }

  lemma {:induction false} DataTold(h: History, calls: seq<Call>, m: Memory, at: nat, n: nat, k: nat)
    requires (forall i :: 0 <= i < |calls| ==> CanBe(calls[i])) && StoredLast(calls, at, n, k)
    ensures at < WORDS && Written(m, AskedAll(h, calls).data)[at] == WordOf(calls[n].load, k)
  {
    var last := |calls| - 1;
    var front := calls[..last];
    StoredOrNot(h, calls, m);
    if n < last {
      StoredBefore(calls, at, n, k);
      DataTold(h, front, m, at, n, k);
    }
    if calls[last].ToStore? {
      LandedIs(Written(m, AskedAll(h, front).data), calls[last].load, false, at);
    }
  }

  lemma StoredOrNot(h: History, calls: seq<Call>, m: Memory)
    requires (forall i :: 0 <= i < |calls| ==> CanBe(calls[i])) && calls != []
    ensures var last := |calls| - 1; var before := Written(m, AskedAll(h, calls[..last]).data);
      Written(m, AskedAll(h, calls).data)
      == if calls[last].ToStore? then Landed(before, calls[last].load, false) else before
  {
    var last := |calls| - 1;
    if calls[last].ToStore? {
      AfterMore(m, AskedAll(h, calls[..last]).data, calls[last].load, false);
    }
  }

  lemma StoredBefore(calls: seq<Call>, at: nat, n: nat, k: nat)
    requires StoredLast(calls, at, n, k) && n < |calls| - 1
    ensures StoredLast(calls[..|calls| - 1], at, n, k)
    ensures calls[|calls| - 1].ToStore? ==> WritesNowhere(calls[|calls| - 1].load, false, at)
  {
  }

  lemma {:induction false} ConfigTold(h: History, calls: seq<Call>, e: Engine, n: nat)
    requires (forall i :: 0 <= i < |calls| ==> CanBe(calls[i])) && ConfiguredLast(h.engine, calls, e, n)
    ensures KeptOf(AskedAll(h, calls), e).config == Some(calls[n].config)
  {
    var last := |calls| - 1;
    var front := calls[..last];
    EngineIsSelected(h, front, e);
    SelectedBefore(h.engine, calls, last, e);
    if n < last {
      forall m: nat | m < |front| ensures SelectedAt(h.engine, front, m, e) <==> SelectedAt(h.engine, calls, m, e) {
        SelectedBefore(h.engine, calls, m, e);
      }
      ConfigTold(h, front, e, n);
    }
  }

  lemma ProgramsTold(c: Chip, h: History, calls: seq<Call>)
    requires forall i :: 0 <= i < |calls| ==> CanBe(calls[i])
    requires Holds(c, AskedAll(h, calls))
    ensures TellsPrograms(c, h.engine, calls)
  {
    forall e: Engine, at: nat, n: nat, k: nat | LoadedLast(h.engine, calls, e, at, n, k)
      ensures at < WORDS && CoreOf(c, e).program[at] == WordOf(calls[n].load, k)
    {
      var m := ProgramFrom(c, AskedAll(h, calls), e);
      ProgramTold(h, calls, e, m, at, n, k);
    }
  }

  lemma ProgramFrom(c: Chip, h: History, e: Engine) returns (m: Memory)
    requires Holds(c, h)
    ensures CoreOf(c, e).program == Programmed(m, KeptOf(h, e).loads)
  {
    assert CoreHolds(CoreOf(c, e), KeptOf(h, e));
    m :| CoreOf(c, e).program == Programmed(m, KeptOf(h, e).loads);
  }

  lemma DataIsTold(c: Chip, h: History, calls: seq<Call>)
    requires forall i :: 0 <= i < |calls| ==> CanBe(calls[i])
    requires Holds(c, AskedAll(h, calls))
    ensures TellsData(c, calls)
  {
    var d: Memory :| c.data == Written(d, AskedAll(h, calls).data);
    forall at: nat, n: nat, k: nat | StoredLast(calls, at, n, k)
      ensures at < WORDS && c.data[at] == WordOf(calls[n].load, k)
    {
      DataTold(h, calls, d, at, n, k);
    }
  }

  lemma ConfigsTold(c: Chip, h: History, calls: seq<Call>)
    requires forall i :: 0 <= i < |calls| ==> CanBe(calls[i])
    requires Holds(c, AskedAll(h, calls))
    ensures TellsConfigs(c, h.engine, calls)
  {
    forall e: Engine, n: nat | ConfiguredLast(h.engine, calls, e, n)
      ensures AreConfigured(CoreOf(c, e).registers, calls[n].config)
    {
      ConfigTold(h, calls, e, n);
      assert CoreOf(c, e).registers == Configured(Some(calls[n].config));
    }
  }

  /** A chip that holds what was asked tells what the calls wrote. */
  lemma HoldsTells(c: Chip, h: History, calls: seq<Call>)
    requires forall i :: 0 <= i < |calls| ==> CanBe(calls[i])
    requires Holds(c, AskedAll(h, calls))
    ensures Tells(c, h.engine, calls)
  {
    ProgramsTold(c, h, calls);
    DataIsTold(c, h, calls);
    ConfigsTold(c, h, calls);
    EngineIsSelected(h, calls, c.selected);
  }

  method Make(host: DemoBoardHost, call: Call)
    requires host.Valid() && CanBe(call)
    modifies host, host.spi, host.board
    ensures host.Valid() && host.history == Asked(old(host.history), call)
    ensures Standing(host.spi.Selected(), host.board.clocked)
            == StandsAfter(Standing(old(host.spi.Selected()), old(host.board.clocked)), call)
  {
    match call
    case ToEngine(e) => host.Select(e);
    case ToConfigure(config) => host.Configure(config);
    case ToLoad(l) => host.LoadProgram(l);
    case ToStore(l) => host.LoadData(l);
    case ToEnsure(pins, lost, reset) => var _ := host.Ensure(pins, lost, reset);
    case ToReselect(pins, lost, reset) => var _ := host.Reselect(pins, lost, reset);
    case Elsewhere(ours, lost) => host.board.Enable(ours, lost);
  }

  /** After any run of calls, with other designs enabled at any point and selects failing in any
      way, an `ensure` that returns leaves the chip as if nothing had intervened if and only if the
      calls did not strand it. */
  method EnsureAfter(host: DemoBoardHost, calls: seq<Call>, pins: Pins, lost: Chip, reset: Chip)
    returns (did: Option<bool>)
    requires host.Valid() && IsReset(reset)
    requires forall i :: 0 <= i < |calls| ==> CanBe(calls[i])
    modifies host, host.spi, host.board
    ensures host.Valid() && host.history == AskedAll(old(host.history), calls)
    ensures var stands := StandsAfterAll(Standing(old(host.spi.Selected()), old(host.board.clocked)), calls);
      did == if stands.selected then Some(false) else if pins.Good? then Some(true) else None
    ensures did.Some? ==>
              (host.board.clocked && Holds(host.board.chip, AskedAll(old(host.history), calls))
               <==> !Stranded(Standing(old(host.spi.Selected()), old(host.board.clocked)), calls))
    ensures did.Some? && !Stranded(Standing(old(host.spi.Selected()), old(host.board.clocked)), calls) ==>
              Tells(host.board.chip, old(host.engine), calls)
  {
    ghost var start := Standing(host.spi.Selected(), host.board.clocked);
    var n := 0;
    while n < |calls|
      invariant 0 <= n <= |calls|
      invariant host.Valid() && host.history == AskedAll(old(host.history), calls[..n])
      invariant Standing(host.spi.Selected(), host.board.clocked) == StandsAfterAll(start, calls[..n])
    {
      assert calls[..n + 1][..n] == calls[..n];
      Make(host, calls[n]);
      n := n + 1;
    }
    assert calls[..n] == calls;
    did := host.Ensure(pins, lost, reset);
    if did.Some? && !Stranded(start, calls) {
      HoldsTells(host.board.chip, old(host.history), calls);
    }
  }

  /** A select that stops at the pins strands the chip: the count it noted makes the next
      `ensure` take it for loaded, with whatever it powered up with. */
  method PinHighStrands(host: DemoBoardHost, other: Chip, lost: Chip, reset: Chip)
    returns (first: Option<bool>, second: Option<bool>)
    requires host.Valid() && IsReset(reset)
    modifies host, host.spi, host.board
    ensures first == None && second == Some(false) && host.board.chip == lost && host.history == old(host.history)
  {
    host.board.Enable(false, other);
    first := host.Ensure(PinHigh, lost, reset);
    second := host.Ensure(Good, lost, reset);
  }
}
