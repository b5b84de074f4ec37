/**
 The mana tracker component: the controls of its max-mana form, spell-spec
 form and add/remove amount as fields, the two snapshots its change
 detectors keep, and its actions and change handlers as methods. Every write
 to a max-mana or spell-spec control runs that form's change detector, and
 the handler branch for the reported control runs right after it, as the
 form's value-change subscription does. Each method is proved to leave the
 state that the matching function of module ManaLedger describes.
 */
module ManaTracker {
  import opened ManaLedger
  import ChangeDetector

  class Component {
    const tables: Tables

    // the max-mana form
    var level: int
    var blessing: string
    var extraManaMax: int
    var maxMana: int
    var currentMana: int

    // the add/remove amount
    var amount: int

    /** The balance the spell form's validator was last built with. */
    var validatorMana: int

    // the spell-spec form
    var patterns: int
    var baseCostSum: int
    var range: int
    var cost: int

    // the change detectors' snapshots of the previous form values
    var maxManaOldValue: map<MaxManaKey, Value>
    var spellSpecOldValue: map<SpellKey, int>

    function MaxManaFormValue(): (m: map<MaxManaKey, Value>)
      reads this
      ensures m.Keys == {Level, Blessing, ExtraManaMax, MaxMana, CurrentMana}
    {
      map[Level := Num(level), Blessing := Text(blessing), ExtraManaMax := Num(extraManaMax),
          MaxMana := Num(maxMana), CurrentMana := Num(currentMana)]
    }

    function SpellSpecFormValue(): (m: map<SpellKey, int>)
      reads this
      ensures m.Keys == {Patterns, BaseCostSum, Range, Cost}
    {
      map[Patterns := patterns, BaseCostSum := baseCostSum, Range := range, Cost := cost]
    }

    function Spell(): SpellSpec
      reads this
    {
      SpellSpec(patterns, baseCostSum, range, cost)
    }

    /** Between events each snapshot equals its form's value. */
    ghost predicate Valid()
      reads this
    {
      maxManaOldValue == MaxManaFormValue() && spellSpecOldValue == SpellSpecFormValue()
    }

    ghost function Model(): Ledger
      reads this
    {
      Ledger(level, blessing, extraManaMax, maxMana, currentMana, amount, validatorMana, Spell())
    }

    /** Start-up: the form defaults, overwritten by the stored record when
        there is one; the maximum is computed and written without running
        any handler, the spell validator is built with the loaded balance,
        and both snapshots are taken. */
    constructor (t: Tables, defaults: MaxManaRecord, stored: Option<MaxManaRecord>, spell: SpellSpec)
      ensures Valid() && tables == t
      ensures Model() == Initial(t, defaults, stored, spell)
    {
      tables := t;
      var rec := defaults;
      if stored.Some? {
        rec := stored.value;
      }
      level, blessing, extraManaMax := rec.level, rec.blessing, rec.extraManaMax;
      maxMana, currentMana := rec.maxMana, rec.currentMana;
      patterns, baseCostSum, range, cost := spell.patterns, spell.baseCostSum, spell.range, spell.cost;
      amount := 0;
      maxManaOldValue, spellSpecOldValue := map[], map[];
      validatorMana := 0;
      new;
      maxMana := MaxManaFor(t, level, blessing, extraManaMax);
      validatorMana := currentMana;
      maxManaOldValue := MaxManaFormValue();
      spellSpecOldValue := SpellSpecFormValue();
    }

    /** The max-mana form's change detector, run on the form's current value. */
    method MaxManaFormChanges() returns (changes: map<MaxManaKey, Value>)
      modifies this`maxManaOldValue
      ensures changes == ChangeDetector.Diff(old(maxManaOldValue), MaxManaFormValue())
      ensures maxManaOldValue == old(maxManaOldValue) + MaxManaFormValue()
    {
      changes, maxManaOldValue := ChangeDetector.ChangesOf(maxManaOldValue, MaxManaFormValue());
    }

    /** The spell-spec form's change detector, run on the form's current value. */
    method SpellSpecFormChanges() returns (changes: map<SpellKey, int>)
      modifies this`spellSpecOldValue
      ensures changes == ChangeDetector.Diff(old(spellSpecOldValue), SpellSpecFormValue())
      ensures spellSpecOldValue == old(spellSpecOldValue) + SpellSpecFormValue()
    {
      changes, spellSpecOldValue := ChangeDetector.ChangesOf(spellSpecOldValue, SpellSpecFormValue());
    }

    /** How far a balance is from one the current-mana handler leaves alone;
        it bounds the handler's re-entries. */
    function Rank(v: int): nat
      reads this
    {
      if v < 0 then 1 else if 0 < v && blessing != Gluttony && v > maxMana then 2 else 0
    }

    /** A write of `v` to the current-mana control, followed by the handler
        when the detector reports it. */
    method SetCurrentMana(v: int)
      requires Valid()
      modifies this
      decreases Rank(v), if v == currentMana then 0 else 2
      ensures Valid() && Model() == ManaLedger.SetCurrentMana(old(Model()), v)
    {
      ChangeDetector.DiffOfSingleWrite(MaxManaFormValue(), CurrentMana, Num(v));
      currentMana := v;
      var changes := MaxManaFormChanges();
      if CurrentMana in changes {
        NormaliseCurrent();
      }
    }

    /** The current-mana branch of the max-mana handler: a falsy or negative
        balance is replaced by 0, one above the maximum by the maximum unless
        the blessing is gluttony (each write re-enters this handler), and a
        balance left alone rebuilds the spell validator with it. */
    method NormaliseCurrent()
      requires Valid()
      modifies this
      decreases Rank(currentMana), 1
      ensures Valid() && Model() == Normalise(old(Model()))
    {
      var value := currentMana;
      if value == 0 || value < 0 {
        SetCurrentMana(0);
      } else if blessing != Gluttony && value > maxMana {
        SetCurrentMana(maxMana);
      } else {
        validatorMana := value;
      }
    }

    /** A write of `m` to the max-mana control, followed by the handler's
        max-mana branch when the detector reports it: a balance above `m` is
        lowered to it, whatever the blessing. */
    method SetMaxMana(m: int)
      requires Valid()
      modifies this
      ensures Valid() && Model() == ManaLedger.SetMaxMana(old(Model()), m)
    {
      ChangeDetector.DiffOfSingleWrite(MaxManaFormValue(), MaxMana, Num(m));
      maxMana := m;
      var changes := MaxManaFormChanges();
      if MaxMana in changes {
        if currentMana > m {
          SetCurrentMana(m);
        }
      }
    }

    method RecalculateMaxMana()
      requires Valid()
      modifies this
      ensures Valid() && Model() == ManaLedger.RecalculateMaxMana(tables, old(Model()))
    {
      SetMaxMana(MaxManaFor(tables, level, blessing, extraManaMax));
    }

    /** A user edit of the level: the maximum is recomputed when the
        reported new level is truthy. */
    method SetLevel(v: int)
      requires Valid()
      modifies this
      ensures Valid() && Model() == ManaLedger.SetLevel(tables, old(Model()), v)
    {
      ChangeDetector.DiffOfSingleWrite(MaxManaFormValue(), Level, Num(v));
      level := v;
      var changes := MaxManaFormChanges();
      if Level in changes && Truthy(changes[Level]) {
        RecalculateMaxMana();
      }
    }

    /** A user edit of the bonus: the maximum is recomputed when the
        reported new bonus is truthy. */
    method SetExtraManaMax(v: int)
      requires Valid()
      modifies this
      ensures Valid() && Model() == ManaLedger.SetExtraManaMax(tables, old(Model()), v)
    {
      ChangeDetector.DiffOfSingleWrite(MaxManaFormValue(), ExtraManaMax, Num(v));
      extraManaMax := v;
      var changes := MaxManaFormChanges();
      if ExtraManaMax in changes && Truthy(changes[ExtraManaMax]) {
        RecalculateMaxMana();
      }
    }

    /** A user choice of blessing: the maximum is recomputed when the
        reported new blessing is truthy. */
    method SetBlessing(b: string)
      requires Valid()
      modifies this
      ensures Valid() && Model() == ManaLedger.SetBlessing(tables, old(Model()), b)
    {
      ChangeDetector.DiffOfSingleWrite(MaxManaFormValue(), Blessing, Text(b));
      blessing := b;
      var changes := MaxManaFormChanges();
      if Blessing in changes && Truthy(changes[Blessing]) {
        RecalculateMaxMana();
      }
    }

    /** A write of `v` to the add/remove amount and one pass of its
        value-change handler. The 0 the handler writes re-enters it; the
        ledger's `SetAmount` settles that re-entry with the guarded handler. */
    method SetAmount(v: int)
      modifies this`amount
      ensures Model() == ManaLedger.SetAmount(old(Model()), v)
    {
      amount := v;
      if v == 0 {
        amount := 0;
      }
      if v < 0 {
        amount := 0;
      }
    }

    method AddRemove(multiplier: int)
      requires multiplier == 1 || multiplier == -1
      requires Valid()
      modifies this
      ensures Valid() && Model() == ManaLedger.AddRemove(old(Model()), multiplier)
    {
      if amount < 0 {
        return;
      }
      var change := amount;
      var before := currentMana;
      var newValue := before + change * multiplier;
      if newValue < 0 {
        return;
      }
      var max := maxMana;
      SetAmount(0);
      if blessing != Gluttony {
        newValue := if newValue > max then max else newValue;
      }
      SetCurrentMana(newValue);
    }

    method OnResetMana()
      requires Valid()
      modifies this
      ensures Valid() && Model() == ResetMana(old(Model()))
    {
      SetCurrentMana(maxMana);
    }

    method OnTurnEnd()
      requires Valid()
      modifies this
      ensures Valid() && Model() == TurnEnd(tables, old(Model()))
    {
      var current := currentMana;
      SetCurrentMana(current + tables.publicPoolByLevel(level));
    }

    method OnCastSpell()
      requires Valid()
      modifies this
      ensures Valid() && Model() == CastSpell(tables, old(Model()))
    {
      if !tables.spellFormValid(validatorMana, Spell()) {
        return;
      }
      var current := currentMana;
      SetCurrentMana(current - cost);
    }

    /** A write of the cost; the handler has no branch for the cost, so the
        detector's report is dropped. */
    method RecalculateCost()
      requires Valid()
      modifies this
      ensures Valid() && Model() == old(Model()).(spell := Recost(tables, old(Spell())))
    {
      ChangeDetector.DiffOfSingleWrite(SpellSpecFormValue(), Cost, tables.spellCost(patterns, baseCostSum, range));
      cost := tables.spellCost(patterns, baseCostSum, range);
      var _ := SpellSpecFormChanges();
    }

    method WriteSpellField(k: SpellKey, v: int)
      modifies this
      ensures Spell() == WithField(old(Spell()), k, v)
      ensures SpellSpecFormValue() == old(SpellSpecFormValue())[k := v]
      ensures Model() == old(Model()).(spell := Spell())
      ensures maxManaOldValue == old(maxManaOldValue) && spellSpecOldValue == old(spellSpecOldValue)
    {
      match k
      case Patterns => patterns := v;
      case BaseCostSum => baseCostSum := v;
      case Range => range := v;
      case Cost => cost := v;
    }

    /** How far a spell input is from one the handler leaves alone; it
        bounds the handler's re-entries. */
    function SpellRank(k: SpellKey, v: int): nat
    {
      if v < Floor(k) then 2 else if v == 0 then 1 else 0
    }

    /** A user edit of one spell input, followed by the spell-spec handler
        when the detector reports it: a falsy or too small value is replaced
        by the floor (0 for range and base cost sum, 1 for patterns, and the
        write re-enters the handler) and the cost is recomputed. */
    method SetSpellInput(k: SpellKey, v: int)
      requires k != Cost
      requires Valid()
      modifies this
      decreases SpellRank(k, v), if v == Field(Spell(), k) then 0 else 1
      ensures Valid() && Model() == old(Model()).(spell := ManaLedger.SetSpellInput(tables, old(Spell()), k, v))
    {
      ChangeDetector.DiffOfSingleWrite(SpellSpecFormValue(), k, v);
      WriteSpellField(k, v);
      var changes := SpellSpecFormChanges();
      if k in changes {
        if v == 0 || v < Floor(k) {
          SetSpellInput(k, Floor(k));
          RecalculateCost();
          return;
        }
        if changes[k] != 0 {
          RecalculateCost();
        }
      }
    }
  }
}
