/**
 The mana ledger of the mana tracker page, as values: the controls of the
 max-mana form, the add/remove amount, the spell-spec form, and the balance
 the spell-cost validator was last built with. Every function below is the
 state a user action or a control write leaves behind once all the change
 handlers it triggers have run; the class in module ManaTracker is proved to
 produce exactly these states.
 */
module ManaLedger {

  /** The blessing that lifts the upper bound on the balance. */
  const Gluttony: string := "gluttony"

  datatype Option<T> = None | Some(value: T)

  /** A control value of the max-mana form, as the change detector compares it. */
  datatype Value = Num(n: int) | Text(s: string)

  /** JavaScript truthiness of a control value: 0 and "" are falsy. */
  predicate Truthy(v: Value)
  {
    match v
    case Num(n) => n != 0
    case Text(s) => s != ""
  }

  /** The controls of the max-mana form. */
  datatype MaxManaKey = Level | Blessing | ExtraManaMax | MaxMana | CurrentMana

  /** The controls of the spell-spec form. */
  datatype SpellKey = Patterns | BaseCostSum | Range | Cost

  /** The value of the spell-spec form. */
  datatype SpellSpec = SpellSpec(patterns: int, baseCostSum: int, range: int, cost: int)

  /** The value of the max-mana form, also the shape of the persisted record. */
  datatype MaxManaRecord = MaxManaRecord(level: int, blessing: string, extraManaMax: int, maxMana: int, currentMana: int)

  /** The game tables and the spell rules, whose definitions are not part of
      this model: capacity by level, multiplier by blessing, the turn pool by
      level, the spell-cost formula, and the spell form's validity given the
      balance its validator was built with. */
  datatype Tables = Tables(
    capacityByLevel: int -> int,
    multiplierByBlessing: string -> int,
    publicPoolByLevel: int -> int,
    spellCost: (int, int, int) -> int,
    spellFormValid: (int, SpellSpec) -> bool)

  /** Everything the ledger transitions read or write. `validatorMana` is the
      balance the spell form's validator was last built with. */
  datatype Ledger = Ledger(
    level: int,
    blessing: string,
    extraManaMax: int,
    maxMana: int,
    currentMana: int,
    amount: int,
    validatorMana: int,
    spell: SpellSpec)

  function Max0(x: int): int { if x < 0 then 0 else x }

  function Clamp(x: int, lo: int, hi: int): int
    requires lo <= hi
  {
    if x < lo then lo else if x > hi then hi else x
  }

  /** The maximum mana of a level, blessing and bonus: the level's capacity
      scaled by the blessing's multiplier, plus the bonus, and nothing else. */
  function MaxManaFor(t: Tables, level: int, blessing: string, extraManaMax: int): (m: int)
    ensures m - extraManaMax == t.capacityByLevel(level) * t.multiplierByBlessing(blessing)
  {
    t.capacityByLevel(level) * t.multiplierByBlessing(blessing) + extraManaMax
  }

  /** The balance the current-mana handler settles on for a freshly written
      value: null, zero and negative values become 0; above the maximum it is
      pulled down to the maximum unless the blessing is gluttony, and the
      handler re-entered with that maximum turns a non-positive one into 0. */
  function NormalisedCurrent(value: int, maxMana: int, blessing: string): (r: int)
    ensures 0 <= r
    ensures blessing != Gluttony ==> r <= maxMana || r == 0
    ensures r == value || r == 0 || (r == maxMana && value > maxMana)
    ensures 0 < value && (blessing == Gluttony || value <= maxMana) ==> r == value
  {
    if value <= 0 then 0
    else if blessing != Gluttony && value > maxMana then (if maxMana <= 0 then 0 else maxMana)
    else value
  }

  /** The ledger invariant: the balance is never negative, and without
      gluttony it does not exceed the maximum (a non-positive maximum leaves
      only 0). */
  predicate Capped(s: Ledger)
  {
    0 <= s.currentMana && (s.blessing != Gluttony ==> s.currentMana <= s.maxMana || s.currentMana == 0)
  }

  /** The current-mana handler run to its fixed point. A balance it leaves
      positive is also the one the spell validator is rebuilt with; when it
      writes 0 it returns before rebuilding, so the validator keeps its old
      balance. */
  function Normalise(s: Ledger): Ledger
  {
    var r := NormalisedCurrent(s.currentMana, s.maxMana, s.blessing);
    s.(currentMana := r, validatorMana := if r > 0 then r else s.validatorMana)
  }

  /** A write of `v` to the current-mana control: the handler runs only when
      the change detector sees a new value. */
  function SetCurrentMana(s: Ledger, v: int): Ledger
  {
    if v == s.currentMana then s else Normalise(s.(currentMana := v))
  }

  /** A write of `m` to the max-mana control. On a change the balance is
      lowered to `m` when it exceeds it, whatever the blessing. */
  function SetMaxMana(s: Ledger, m: int): Ledger
  {
    if m == s.maxMana then s
    else
      var s1 := s.(maxMana := m);
      if s1.currentMana > m then SetCurrentMana(s1, m) else s1
  }

  function RecalculateMaxMana(t: Tables, s: Ledger): Ledger
  {
    SetMaxMana(s, MaxManaFor(t, s.level, s.blessing, s.extraManaMax))
  }

  /** User edits of level, bonus and blessing: the maximum is recomputed only
      when the detected new value is truthy. */
  function SetLevel(t: Tables, s: Ledger, level: int): Ledger
  {
    if level == s.level then s
    else
      var s1 := s.(level := level);
      if Truthy(Num(level)) then RecalculateMaxMana(t, s1) else s1
  }

  function SetExtraManaMax(t: Tables, s: Ledger, extraManaMax: int): Ledger
  {
    if extraManaMax == s.extraManaMax then s
    else
      var s1 := s.(extraManaMax := extraManaMax);
      if Truthy(Num(extraManaMax)) then RecalculateMaxMana(t, s1) else s1
  }

  function SetBlessing(t: Tables, s: Ledger, blessing: string): Ledger
  {
    if blessing == s.blessing then s
    else
      var s1 := s.(blessing := blessing);
      if Truthy(Text(blessing)) then RecalculateMaxMana(t, s1) else s1
  }

  /** The write the amount handler issues on seeing `v`, as written: 0 for a
      falsy or negative value, whether or not the control already holds 0. */
  function AmountHandlerWrite(v: int): Option<int>
  {
    if v == 0 || v < 0 then Some(0) else None
  }

  /** The amount handler as evidently intended: only a value that is not
      already 0 is rewritten, so the write it issues does not trigger
      another one. */
  function GuardedAmountHandlerWrite(v: int): Option<int>
  {
    if v < 0 then Some(0) else None
  }

  /** Each write to the amount control emits its new value and re-enters
      the handler. This is the write issued by the `n`-th nested entry after
      a first entry that saw `v`, or None once an entry issues no write. */
  function AmountWriteAtDepth(handler: int -> Option<int>, v: int, n: nat): Option<int>
    decreases n
  {
    match handler(v)
    case None => None
    case Some(w) => if n == 0 then Some(w) else AmountWriteAtDepth(handler, w, n - 1)
  }

  /** A user edit of the add/remove amount, settled by the guarded handler:
      null, zero and negative values end up as 0. */
  function SetAmount(s: Ledger, v: int): (r: Ledger)
    ensures r.amount >= 0
    ensures v > 0 ==> r.amount == v
    ensures v <= 0 ==> r.amount == 0
    ensures r == s.(amount := r.amount)
  {
    match GuardedAmountHandlerWrite(v)
    case Some(w) => s.(amount := w)
    case None => s.(amount := v)
  }

  /** Adding (`multiplier` 1) or removing (-1) the amount. An invalid amount
      or a negative result changes nothing; otherwise the amount is reset and
      the result, capped at the maximum unless the blessing is gluttony, is
      written to the current-mana control. */
  function AddRemove(s: Ledger, multiplier: int): Ledger
    requires multiplier == 1 || multiplier == -1
  {
    if s.amount < 0 then s
    else
      var newValue := s.currentMana + s.amount * multiplier;
      if newValue < 0 then s
      else
        var capped := if s.blessing != Gluttony && newValue > s.maxMana then s.maxMana else newValue;
        SetCurrentMana(s.(amount := 0), capped)
  }

  function ResetMana(s: Ledger): Ledger
  {
    SetCurrentMana(s, s.maxMana)
  }

  /** End of turn: the level's turn pool is added with no clamp of its own. */
  function TurnEnd(t: Tables, s: Ledger): Ledger
  {
    SetCurrentMana(s, s.currentMana + t.publicPoolByLevel(s.level))
  }

  /** Casting: nothing when the spell form is invalid, otherwise the cost is
      taken from the balance. */
  function CastSpell(t: Tables, s: Ledger): Ledger
  {
    if !t.spellFormValid(s.validatorMana, s.spell) then s
    else SetCurrentMana(s, s.currentMana - s.spell.cost)
  }

  /** The least value the spell handler lets a spell input keep. */
  function Floor(k: SpellKey): int
  {
    if k == Patterns then 1 else 0
  }

  function Field(sp: SpellSpec, k: SpellKey): int
  {
    match k
    case Patterns => sp.patterns
    case BaseCostSum => sp.baseCostSum
    case Range => sp.range
    case Cost => sp.cost
  }

  function WithField(sp: SpellSpec, k: SpellKey, v: int): SpellSpec
  {
    match k
    case Patterns => sp.(patterns := v)
    case BaseCostSum => sp.(baseCostSum := v)
    case Range => sp.(range := v)
    case Cost => sp.(cost := v)
  }

  function Recost(t: Tables, sp: SpellSpec): SpellSpec
  {
    sp.(cost := t.spellCost(sp.patterns, sp.baseCostSum, sp.range))
  }

  /** A user edit of one spell input (not the derived cost): on a change the
      input is raised to its floor if below it and the cost is recomputed. */
  function SetSpellInput(t: Tables, sp: SpellSpec, k: SpellKey, v: int): SpellSpec
    requires k != Cost
  {
    if v == Field(sp, k) then sp
    else Recost(t, WithField(sp, k, if v < Floor(k) then Floor(k) else v))
  }

  /** The spell-spec invariant the handler establishes for the inputs it sees. */
  predicate SpellNormal(t: Tables, sp: SpellSpec)
  {
    sp.patterns >= 1 && sp.baseCostSum >= 0 && sp.range >= 0
    && sp.cost == t.spellCost(sp.patterns, sp.baseCostSum, sp.range)
  }

  /** The record saved after each max-mana event: the form's value. */
  function Saved(s: Ledger): MaxManaRecord
  {
    MaxManaRecord(s.level, s.blessing, s.extraManaMax, s.maxMana, s.currentMana)
  }

  /** The state at start-up: the stored record if there is one, else the
      form defaults; the maximum is computed from it without touching the
      balance, and the spell validator is built with the loaded balance. */
  function Initial(t: Tables, defaults: MaxManaRecord, stored: Option<MaxManaRecord>, spell: SpellSpec): Ledger
  {
    var rec := if stored.Some? then stored.value else defaults;
    Ledger(rec.level, rec.blessing, rec.extraManaMax,
           MaxManaFor(t, rec.level, rec.blessing, rec.extraManaMax),
           rec.currentMana, 0, rec.currentMana, spell)
  }

  /** The user actions, for reasoning about sequences of them. */
  datatype Op =
    | AddRemoveOp(multiplier: int)
    | ResetManaOp
    | TurnEndOp
    | CastSpellOp
    | SetCurrentManaOp(v: int)
    | SetAmountOp(v: int)
    | SetLevelOp(v: int)
    | SetExtraManaMaxOp(v: int)
    | SetBlessingOp(b: string)
    | SetSpellInputOp(k: SpellKey, v: int)

  predicate ValidOp(op: Op)
  {
    match op
    case AddRemoveOp(m) => m == 1 || m == -1
    case SetSpellInputOp(k, _) => k != Cost
    case _ => true
  }

  function Step(t: Tables, s: Ledger, op: Op): Ledger
    requires ValidOp(op)
  {
    match op
    case AddRemoveOp(m) => AddRemove(s, m)
    case ResetManaOp => ResetMana(s)
    case TurnEndOp => TurnEnd(t, s)
    case CastSpellOp => CastSpell(t, s)
    case SetCurrentManaOp(v) => SetCurrentMana(s, v)
    case SetAmountOp(v) => SetAmount(s, v)
    case SetLevelOp(v) => SetLevel(t, s, v)
    case SetExtraManaMaxOp(v) => SetExtraManaMax(t, s, v)
    case SetBlessingOp(b) => SetBlessing(t, s, b)
    case SetSpellInputOp(k, v) => s.(spell := SetSpellInput(t, s.spell, k, v))
  }

  function Run(t: Tables, s: Ledger, ops: seq<Op>): Ledger
    requires forall i :: 0 <= i < |ops| ==> ValidOp(ops[i])
    decreases |ops|
  {
    if ops == [] then s else Run(t, Step(t, s, ops[0]), ops[1..])
  }
}
