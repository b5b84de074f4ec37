/**
 What the ledger transitions promise: the maximum formula, the balance
 normalisation, the add/remove, reset, turn-end and cast rules, the spell
 input floors, and the balance invariant over any sequence of user actions
 in which no blessing switch is uncapping (`SafeRun`).
 */
module LedgerProperties {
  import opened ManaLedger

  /** Recomputing the maximum writes exactly the table formula for the
      form's level, blessing and bonus, and touches no input. */
  lemma RecalculateUsesFormula(t: Tables, s: Ledger)
    ensures var r := RecalculateMaxMana(t, s);
      && r.maxMana == MaxManaFor(t, s.level, s.blessing, s.extraManaMax)
      && r.maxMana == t.capacityByLevel(s.level) * t.multiplierByBlessing(s.blessing) + s.extraManaMax
      && r.level == s.level && r.blessing == s.blessing && r.extraManaMax == s.extraManaMax
      && r.amount == s.amount && r.spell == s.spell
  {
  }

  /** Normalising a balance twice is normalising it once. */
  lemma NormalisedIdempotent(value: int, maxMana: int, blessing: string)
    ensures var once := NormalisedCurrent(value, maxMana, blessing);
      NormalisedCurrent(once, maxMana, blessing) == once
  {
  }

  /** The normalised balance is the value clamped to [0, maxMana], or to
      [0, ∞) under gluttony. */
  lemma NormalisedIsClamp(value: int, maxMana: int, blessing: string)
    ensures blessing != Gluttony && maxMana >= 0 ==> NormalisedCurrent(value, maxMana, blessing) == Clamp(value, 0, maxMana)
    ensures blessing != Gluttony && maxMana < 0 ==> NormalisedCurrent(value, maxMana, blessing) == 0
    ensures blessing == Gluttony ==> NormalisedCurrent(value, maxMana, blessing) == Max0(value)
  {
  }

  /** From any state, a write to the current-mana control that the detector
      reports settles at the normalised value, which is capped, and rebuilds
      the validator only with a positive balance; a write the detector does
      not report keeps a capped state capped. */
  lemma SetCurrentManaCaps(s: Ledger, v: int)
    ensures Capped(s) || v != s.currentMana ==> Capped(SetCurrentMana(s, v))
    ensures v != s.currentMana ==> SetCurrentMana(s, v).currentMana == NormalisedCurrent(v, s.maxMana, s.blessing)
    ensures var r := SetCurrentMana(s, v);
      v != s.currentMana ==> r.validatorMana == if r.currentMana > 0 then r.currentMana else s.validatorMana
    ensures SetCurrentMana(s, v) == s.(currentMana := SetCurrentMana(s, v).currentMana,
                                       validatorMana := SetCurrentMana(s, v).validatorMana)
  {
  }

  /** A change of the maximum lowers an exceeding balance to it (to 0 if it
      is not positive), whatever the blessing, and never raises the balance. */
  lemma SetMaxManaClamps(s: Ledger, m: int)
    requires 0 <= s.currentMana
    ensures var r := SetMaxMana(s, m);
      && r.maxMana == m
      && r.currentMana <= s.currentMana
      && (m == s.maxMana ==> r == s)
      && (m != s.maxMana && s.currentMana > m ==> r.currentMana == Max0(m))
      && (s.currentMana <= m ==> r.currentMana == s.currentMana)
      && r == s.(maxMana := m, currentMana := r.currentMana, validatorMana := r.validatorMana)
  {
  }

  /** Add/remove. An invalid amount or a negative result leaves the whole
      state as it was; otherwise the amount becomes 0 and the balance becomes
      the sum, capped at the maximum unless the blessing is gluttony. */
  lemma AddRemoveOutcome(s: Ledger, multiplier: int)
    requires multiplier == 1 || multiplier == -1
    requires 0 <= s.currentMana
    ensures var newValue := s.currentMana + s.amount * multiplier;
      s.amount < 0 || newValue < 0 ==> AddRemove(s, multiplier) == s
    ensures var newValue := s.currentMana + s.amount * multiplier;
      var r := AddRemove(s, multiplier);
      s.amount >= 0 && newValue >= 0 ==>
        && r.amount == 0
        && r.currentMana == (if s.blessing != Gluttony && newValue > s.maxMana then Max0(s.maxMana) else newValue)
        && r == s.(amount := 0, currentMana := r.currentMana, validatorMana := r.validatorMana)
  {
  }

  /** Resetting fills the balance to the maximum (0 if that is not positive). */
  lemma ResetManaFills(s: Ledger)
    requires 0 <= s.currentMana
    ensures ResetMana(s).currentMana == Max0(s.maxMana)
    ensures ResetMana(s) == s.(currentMana := Max0(s.maxMana), validatorMana := ResetMana(s).validatorMana)
  {
  }

  /** The turn pool is added to the balance; only the current-mana handler
      bounds the result. */
  lemma TurnEndAddsPool(t: Tables, s: Ledger)
    ensures var pool := t.publicPoolByLevel(s.level);
      TurnEnd(t, s).currentMana
        == if pool == 0 then s.currentMana else NormalisedCurrent(s.currentMana + pool, s.maxMana, s.blessing)
    ensures var pool := t.publicPoolByLevel(s.level);
      (0 <= pool && Capped(s) && (s.blessing == Gluttony || s.currentMana + pool <= s.maxMana)) ==>
        TurnEnd(t, s).currentMana == s.currentMana + pool
  {
  }

  /** Casting does nothing when the spell form is invalid. Otherwise the
      balance becomes the normalised difference of balance and cost: it goes
      down by exactly the cost when that leaves it positive and in range, to 0
      when a non-negative balance does not cover the cost, and nothing but the
      balance and the validator's balance changes. The validator is rebuilt
      with a positive new balance and kept when the balance ends at 0. */
  lemma CastSpellOutcome(t: Tables, s: Ledger)
    ensures !t.spellFormValid(s.validatorMana, s.spell) ==> CastSpell(t, s) == s
    ensures var r := CastSpell(t, s);
      t.spellFormValid(s.validatorMana, s.spell) ==>
        && r == s.(currentMana := r.currentMana, validatorMana := r.validatorMana)
        && (s.spell.cost == 0 ==> r == s)
        && (s.spell.cost != 0 ==> r.currentMana == NormalisedCurrent(s.currentMana - s.spell.cost, s.maxMana, s.blessing))
        && (0 <= s.spell.cost < s.currentMana && (s.blessing == Gluttony || s.currentMana - s.spell.cost <= s.maxMana)
            ==> r.currentMana == s.currentMana - s.spell.cost)
        && (0 <= s.currentMana <= s.spell.cost ==> r.currentMana == 0)
        && (s.spell.cost != 0 && r.currentMana > 0 ==> r.validatorMana == r.currentMana)
        && (r.currentMana == 0 ==> r.validatorMana == s.validatorMana)
  {
  }

  /** A cast that empties the balance keeps the validator built with the
      balance before it, so a spell form that checks the cost against that
      balance stays valid and a second cast is accepted at 0. */
  lemma CastAtZeroPassesStaleValidator()
    ensures var t := Tables(_ => 30, _ => 1, _ => 0, (_, _, _) => 12, (vm, sp: SpellSpec) => sp.cost <= vm);
      var s := Ledger(3, "none", 0, 30, 12, 0, 12, SpellSpec(1, 0, 0, 12));
      var s1 := CastSpell(t, s);
      var s2 := CastSpell(t, s1);
      && Capped(s) && t.spellFormValid(s.validatorMana, s.spell)
      && s1.currentMana == 0 && s1.validatorMana == 12
      && t.spellFormValid(s1.validatorMana, s1.spell)
      && s2 == s1
  {
  }

  /** A spell input edit that the detector reports raises the input to its
      floor if needed, recomputes the cost from the three inputs and leaves
      the other inputs alone; it keeps the spell-spec invariant. */
  lemma SpellInputNormalises(t: Tables, sp: SpellSpec, k: SpellKey, v: int)
    requires k != Cost
    ensures v == Field(sp, k) ==> SetSpellInput(t, sp, k, v) == sp
    ensures var r := SetSpellInput(t, sp, k, v);
      v != Field(sp, k) ==>
        && Field(r, k) == (if v < Floor(k) then Floor(k) else v)
        && Field(r, k) >= Floor(k)
        && (forall j :: j != k && j != Cost ==> Field(r, j) == Field(sp, j))
        && r.cost == t.spellCost(r.patterns, r.baseCostSum, r.range)
    ensures SpellNormal(t, sp) ==> SpellNormal(t, SetSpellInput(t, sp, k, v))
  {
  }

  /** A bonus or level changed to 0 is falsy, so the maximum is not
      recomputed and keeps its old value. */
  lemma FalsyChangeKeepsMax(t: Tables, s: Ledger)
    ensures SetExtraManaMax(t, s, 0) == s.(extraManaMax := 0)
    ensures SetLevel(t, s, 0) == s.(level := 0)
  {
  }

  /** A blessing switch that can leave the balance above the maximum:
      leaving gluttony for a blessing that is empty (no recompute) or whose
      recomputed maximum is the current one (no max-mana change reported). */
  predicate UncappingSwitch(t: Tables, s: Ledger, op: Op)
  {
    && op.SetBlessingOp?
    && s.blessing == Gluttony
    && op.b != Gluttony
    && (op.b == "" || MaxManaFor(t, s.level, op.b, s.extraManaMax) == s.maxMana)
  }

  /** No action of the run, taken from the state the run has reached, is an
      uncapping blessing switch. */
  predicate SafeRun(t: Tables, s: Ledger, ops: seq<Op>)
    requires forall i :: 0 <= i < |ops| ==> ValidOp(ops[i])
    decreases |ops|
  {
    ops == [] || (!UncappingSwitch(t, s, ops[0]) && SafeRun(t, Step(t, s, ops[0]), ops[1..]))
  }

  /** Every user action except an uncapping blessing switch keeps the
      balance invariant. */
  lemma StepKeepsCapped(t: Tables, s: Ledger, op: Op)
    requires ValidOp(op) && !UncappingSwitch(t, s, op)
    requires Capped(s)
    ensures Capped(Step(t, s, op))
  {
  }

  /** Any sequence of user actions without an uncapping blessing switch
      keeps the balance invariant. */
  lemma {:induction false} RunKeepsCapped(t: Tables, s: Ledger, ops: seq<Op>)
    requires forall i :: 0 <= i < |ops| ==> ValidOp(ops[i])
    requires SafeRun(t, s, ops)
    requires Capped(s)
    ensures Capped(Run(t, s, ops))
    decreases |ops|
  {
    if ops != [] {
      StepKeepsCapped(t, s, ops[0]);
      RunKeepsCapped(t, Step(t, s, ops[0]), ops[1..]);
    }
  }

  /** A blessing switch away from gluttony that leaves the maximum where it
      was reports no max-mana change, so a balance above the maximum stays
      above it. */
  lemma BlessingSwitchCanBreakCap()
    ensures var t := Tables(_ => 10, _ => 1, _ => 0, (_, _, _) => 0, (_, _) => true);
      var s := Ledger(1, Gluttony, 0, 10, 50, 0, 50, SpellSpec(1, 0, 0, 0));
      Capped(s) && !Capped(SetBlessing(t, s, "none")) && SetBlessing(t, s, "none").currentMana == 50
  {
  }

  /** Level 3 with no blessing and no bonus has 30 mana; a full balance
      minus a 12-mana spell is 18, and adding 50 caps back at 30. */
  lemma SpendThenOverfillScenario()
    ensures var t := Tables(l => if l == 3 then 30 else 0, _ => 1, _ => 0, (_, _, _) => 12, (_, _) => true);
      var s0 := Initial(t, MaxManaRecord(3, "none", 0, 0, 30), None, SpellSpec(1, 0, 0, 12));
      var s1 := CastSpell(t, s0);
      var s2 := AddRemove(SetAmount(s1, 50), 1);
      s0.maxMana == 30 && s1.currentMana == 18 && s2.currentMana == 30 && s2.amount == 0
  {
  }

  /** Under gluttony a recomputed maximum of 40 leaves a balance of 30 where
      it is, and adding 1000 is not capped. */
  lemma GluttonyScenario()
    ensures var t := Tables(_ => 30, b => if b == Gluttony then 4 else 1, _ => 0, (_, _, _) => 0, (_, _) => true);
      var s0 := Ledger(1, "none", 10, 40, 30, 0, 30, SpellSpec(1, 0, 0, 0));
      var s1 := SetBlessing(t, s0, Gluttony);
      var s2 := AddRemove(SetAmount(s1, 1000), 1);
      s1.maxMana == 130 && s1.currentMana == 30 && s2.currentMana == 1030
  {
  }

  /** Start-up is capped exactly when the loaded balance is not negative and,
      without gluttony, lies under the recomputed maximum (or is 0). */
  lemma InitialCappedIff(t: Tables, defaults: MaxManaRecord, stored: Option<MaxManaRecord>, spell: SpellSpec)
    ensures var rec := if stored.Some? then stored.value else defaults;
      var m := MaxManaFor(t, rec.level, rec.blessing, rec.extraManaMax);
      (Capped(Initial(t, defaults, stored, spell))
       <==> 0 <= rec.currentMana && (rec.blessing == Gluttony || rec.currentMana <= m || rec.currentMana == 0))
    ensures var rec := if stored.Some? then stored.value else defaults;
      Initial(t, defaults, stored, spell).maxMana == MaxManaFor(t, rec.level, rec.blessing, rec.extraManaMax)
      && Initial(t, defaults, stored, spell).currentMana == rec.currentMana
  {
  }

  /** A bonus cleared to 0 leaves the maximum stale, and that stale state is
      what gets saved; reloading it recomputes a lower maximum without
      touching the balance, so a capped session reloads uncapped. */
  lemma ReloadAfterFalsyBonusBreaksCap()
    ensures var t := Tables(_ => 30, _ => 1, _ => 0, (_, _, _) => 0, (_, _) => true);
      var s := Ledger(3, "none", 10, 40, 40, 0, 40, SpellSpec(1, 0, 0, 0));
      var s1 := SetExtraManaMax(t, s, 0);
      var s2 := Initial(t, Saved(s1), Some(Saved(s1)), s.spell);
      && Capped(s) && Capped(s1) && s1.maxMana == 40
      && s2.maxMana == 30 && s2.currentMana == 40 && !Capped(s2)
  {
  }

  /** As written, the amount handler never settles on a falsy or negative
      value: every nested entry it triggers sees 0 and writes 0 again. */
  lemma {:induction false} AmountHandlerNeverSettles(v: int, n: nat)
    requires v <= 0
    ensures AmountWriteAtDepth(AmountHandlerWrite, v, n) == Some(0)
    decreases n
  {
    if n > 0 {
      AmountHandlerNeverSettles(0, n - 1);
    }
  }

  /** The guarded handler issues at most one write, after which the nested
      entry issues none, and it settles every value where the handler as
      written would first have put it. */
  lemma GuardedAmountHandlerSettles(v: int, n: nat)
    ensures n >= 1 ==> AmountWriteAtDepth(GuardedAmountHandlerWrite, v, n) == None
    ensures AmountWriteAtDepth(GuardedAmountHandlerWrite, v, 0) == if v < 0 then Some(0) else None
    ensures (match AmountHandlerWrite(v) case Some(w) => w case None => v) == SetAmount(Ledger(0, "", 0, 0, 0, 0, 0, SpellSpec(1, 0, 0, 0)), v).amount
  {
  }
}
