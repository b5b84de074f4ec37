# Mana tracker ledger, modelled in Dafny

This project models the mana ledger of the mana tracker page of baasti-tools
(`ManaTrackerComponent`). The page keeps a maximum-mana form (level, blessing,
bonus `extraManaMax`, the derived `maxMana` and the balance `currentMana`), a
spell-spec form (`patterns`, `baseCostSum`, `range` and the derived `cost`)
and an add/remove amount. Each form's value stream passes through a change
detector that compares the new value with a snapshot of the previous one. The
detector reports only the changed controls and advances the snapshot. A
handler then normalises the changed control and recomputes the derived ones.

Files:

- `change_detector.dfy` (module `ChangeDetector`): the detector. `Diff` is the
  specification. `ChangesOf` is the key-by-key loop that builds the change
  record and advances the snapshot. Lemmas cover the second call, an empty
  report, and a single-control write.
- `ledger.dfy` (module `ManaLedger`): the ledger as values. It has one function
  per action and per control write, giving the state left once every handler
  the write triggers has run.
- `ledger_properties.dfy` (module `LedgerProperties`): what those transitions
  promise. This covers the maximum formula, balance normalisation, add/remove,
  reset, turn end, casting and the spell-input floors. It also proves the
  balance invariant over any run of actions without an uncapping blessing
  switch, gives counterexamples for such a switch and for a reload after a
  cleared bonus, states when start-up is capped, and checks two worked
  scenarios.
- `mana_tracker.dfy` (module `ManaTracker`): class `Component`. Its fields are
  the form controls, the two snapshots, and `validatorMana`, the balance the
  spell validator was last built with. Its methods write controls, run the
  detector and run the handler branch for the reported control. Each one is
  proved to produce the `ManaLedger` function of the old state.

How the reactive code is modelled:

- Every write after start-up targets one control, except the spell form's
  rewrite at line 117, which writes back its unchanged values and so reports
  nothing. The user edits one control at a time. The whole-form write of the
  stored record happens before the handlers are subscribed. So each detector
  report holds at most one key, and each write method handles that key's
  branch itself.
- A handler that writes a control re-enters the handler through the detector.
  `SetCurrentMana` and `NormaliseCurrent` call each other, and `SetSpellInput`
  calls itself. A rank measure proves these re-entries stop.

Behaviour of the code kept in the model:

- The maximum is recomputed only when the reported new level, bonus or
  blessing is truthy. A bonus or level changed to 0 leaves the maximum stale
  (`FalsyChangeKeepsMax`).
- A maximum change lowers a balance above it whatever the blessing. A
  non-negative balance is never raised (a negative one loaded from storage is
  lowered to a still lower maximum, then set to 0).
- The turn pool is added with no clamp of its own. Only the current-mana
  handler bounds the result.
- Casting is gated only by the spell form's validity. When the cost is not
  covered, the handler floors the balance at 0 rather than refusing the spend.
- When the current-mana handler writes 0 (a zero or negative value, or a clamp
  to a non-positive maximum), it returns before rebuilding the spell validator.
  The validator then keeps the previous balance. A cast that empties the
  balance therefore leaves a spell form that checks its cost against the old
  balance valid, and a second cast is accepted at 0 and leaves it at 0
  (`CastAtZeroPassesStaleValidator`).
- The balance invariant (`Capped`) is not kept by a switch away from gluttony
  to an empty blessing or to one whose recomputed maximum is the current one.
  No maximum change is reported, so the balance can stay above the maximum
  (`UncappingSwitch`, `BlessingSwitchCanBreakCap`). Every other action keeps
  it.
- Start-up recomputes the maximum but does not clamp the loaded balance. It is
  capped exactly when the loaded balance is not negative and, without
  gluttony, at most the recomputed maximum or 0 (`InitialCappedIff`). A bonus
  cleared to 0 leaves a stale maximum that is saved as it is, so the next
  start-up can load a balance above the maximum
  (`ReloadAfterFalsyBonusBreaksCap`).

## Model

| member | source | states |
|---|---|---|
| `ChangeDetector.Diff` | src/app/modules/mana-tracker/mana-tracker.component.ts:236-278 | A key is reported exactly when the emitted value differs from the snapshot or the snapshot lacks it, and it carries the new value |
| `ChangeDetector.ChangesOf` | src/app/modules/mana-tracker/mana-tracker.component.ts:241-250 | The key-by-key loop returns exactly `Diff` of snapshot and value, and leaves the snapshot equal to the old one overwritten by the value |
| `ChangeDetector.DiffAfterAdvanceIsEmpty` | src/app/modules/mana-tracker/mana-tracker.component.ts:244-249 | Once the snapshot has been advanced, a second emission of the same value reports nothing |
| `ChangeDetector.DiffEmptyIff` | src/app/modules/mana-tracker/mana-tracker.component.ts:244-249 | Nothing is reported if and only if every emitted key is in the snapshot with an equal value |
| `ChangeDetector.DiffOfSingleWrite` | src/app/modules/mana-tracker/mana-tracker.component.ts:244-249 | A write of one control to an up-to-date snapshot reports that control alone with its new value, and nothing when the value is unchanged |
| `ManaTracker.Component.MaxManaFormChanges` | src/app/modules/mana-tracker/mana-tracker.component.ts:236-255 | The max-mana detector reports `Diff` of its snapshot and the form value, and advances the snapshot to the value |
| `ManaTracker.Component.SpellSpecFormChanges` | src/app/modules/mana-tracker/mana-tracker.component.ts:257-278 | The spell-spec detector reports `Diff` of its snapshot and the form value, and advances the snapshot to the value |
| `ManaLedger.MaxManaFor` | src/app/modules/mana-tracker/mana-tracker.component.ts:280-288 | The maximum minus the bonus is the level's capacity times the blessing's multiplier; nothing else enters |
| `LedgerProperties.RecalculateUsesFormula` | src/app/modules/mana-tracker/mana-tracker.component.ts:224-234 | Recomputing writes exactly capacity(level) * multiplier(blessing) + bonus as the maximum and changes no input or spell field |
| `ManaTracker.Component.RecalculateMaxMana` | src/app/modules/mana-tracker/mana-tracker.component.ts:224-234 | The component's state after recomputing is the ledger's `RecalculateMaxMana` of the old state, snapshots kept in step |
| `ManaLedger.NormalisedCurrent` | src/app/modules/mana-tracker/mana-tracker.component.ts:101-111 | The settled balance is at least 0, is at most the maximum (or 0) without gluttony, only ever moves to 0 or down to the maximum, and leaves a positive in-range value unchanged |
| `LedgerProperties.NormalisedIsClamp` | src/app/modules/mana-tracker/mana-tracker.component.ts:101-111 | The settled balance is the value clamped to [0, maxMana] without gluttony (0 if the maximum is negative) and to [0, ∞) with it |
| `LedgerProperties.NormalisedIdempotent` | src/app/modules/mana-tracker/mana-tracker.component.ts:101-111 | Normalising a settled balance again changes nothing |
| `LedgerProperties.SetCurrentManaCaps` | src/app/modules/mana-tracker/mana-tracker.component.ts:101-115 | From any state, a changed balance write settles at its normalised value and leaves the invariant holding, rebuilds the validator only with a positive result, and changes no field other than the balance and the validator's balance; an unchanged write keeps a capped state capped |
| `ManaTracker.Component.SetCurrentMana` | src/app/modules/mana-tracker/mana-tracker.component.ts:101-118 | A balance write followed by the detector and, on a change, the handler leaves the ledger's `SetCurrentMana` state |
| `ManaTracker.Component.NormaliseCurrent` | src/app/modules/mana-tracker/mana-tracker.component.ts:101-118 | The current-mana branch, with its re-entries, settles the balance at `NormalisedCurrent` and rebuilds the validator only with a positive settled balance |
| `ManaTracker.Component.SetMaxMana` | src/app/modules/mana-tracker/mana-tracker.component.ts:94-99 | A maximum write with its handler branch leaves the ledger's `SetMaxMana` state |
| `LedgerProperties.SetMaxManaClamps` | src/app/modules/mana-tracker/mana-tracker.component.ts:94-98 | A changed maximum lowers a larger balance to it (0 if not positive) whatever the blessing, never raises the balance, and an unchanged maximum changes nothing |
| `ManaTracker.Component.SetLevel` | src/app/modules/mana-tracker/mana-tracker.component.ts:86-89 | A level edit leaves the ledger's `SetLevel` state: the maximum is recomputed only for a changed truthy level |
| `ManaTracker.Component.SetExtraManaMax` | src/app/modules/mana-tracker/mana-tracker.component.ts:86-89 | A bonus edit leaves the ledger's `SetExtraManaMax` state: the maximum is recomputed only for a changed truthy bonus |
| `ManaTracker.Component.SetBlessing` | src/app/modules/mana-tracker/mana-tracker.component.ts:86-92 | A blessing choice leaves the ledger's `SetBlessing` state: the maximum is recomputed only for a changed non-empty blessing |
| `LedgerProperties.FalsyChangeKeepsMax` | src/app/modules/mana-tracker/mana-tracker.component.ts:88-89 | A bonus or level changed to 0 only stores the 0 and leaves the maximum stale |
| `ManaLedger.SetAmount` | src/app/modules/mana-tracker/mana-tracker.component.ts:161-164 | The amount is never negative afterwards, a positive value is kept, null/zero/negative become 0, and nothing else changes |
| `ManaTracker.Component.SetAmount` | src/app/modules/mana-tracker/mana-tracker.component.ts:161-164 | Writing the amount and running its handler leaves the ledger's `SetAmount` state |
| `LedgerProperties.AmountHandlerNeverSettles` | src/app/modules/mana-tracker/mana-tracker.component.ts:161-164 | As written, the handler rewrites 0 on every nested entry after seeing a zero or negative value, at every depth |
| `LedgerProperties.GuardedAmountHandlerSettles` | src/app/modules/mana-tracker/mana-tracker.component.ts:161-164 | The guarded handler writes 0 only for a negative value, its nested entry writes nothing, and it settles every value where the first write of the handler as written puts it |
| `LedgerProperties.AddRemoveOutcome` | src/app/modules/mana-tracker/mana-tracker.component.ts:171-186 | An invalid amount or a negative result changes nothing at all; otherwise the amount becomes 0 and the balance the sum, capped at the maximum unless gluttony, and nothing else but the validator's balance changes |
| `ManaTracker.Component.AddRemove` | src/app/modules/mana-tracker/mana-tracker.component.ts:171-186 | The action leaves the ledger's `AddRemove` state |
| `LedgerProperties.ResetManaFills` | src/app/modules/mana-tracker/mana-tracker.component.ts:188-192 | Resetting sets the balance to the maximum (0 if not positive) and changes nothing else but the validator's balance |
| `ManaTracker.Component.OnResetMana` | src/app/modules/mana-tracker/mana-tracker.component.ts:188-192 | The action leaves the ledger's `ResetMana` state |
| `LedgerProperties.TurnEndAddsPool` | src/app/modules/mana-tracker/mana-tracker.component.ts:194-201 | The balance becomes the normalised sum of balance and the level's turn pool; a pool that fits is added exactly |
| `ManaTracker.Component.OnTurnEnd` | src/app/modules/mana-tracker/mana-tracker.component.ts:194-201 | The action leaves the ledger's `TurnEnd` state |
| `LedgerProperties.CastSpellOutcome` | src/app/modules/mana-tracker/mana-tracker.component.ts:203-210 | From any state: an invalid spell form changes nothing; a valid one sets the balance to the normalised difference of balance and cost (exactly the difference when positive and in range, 0 when a non-negative balance does not cover the cost), rebuilds the validator only with a positive result, and changes nothing else |
| `LedgerProperties.CastAtZeroPassesStaleValidator` | src/app/modules/mana-tracker/mana-tracker.component.ts:101-115 | A cast of cost 12 from a balance of 12 ends at 0 with the validator still built with 12, so the form stays valid and a second cast is accepted and changes nothing |
| `ManaTracker.Component.OnCastSpell` | src/app/modules/mana-tracker/mana-tracker.component.ts:203-210 | The action leaves the ledger's `CastSpell` state |
| `ManaTracker.Component.RecalculateCost` | src/app/modules/mana-tracker/mana-tracker.component.ts:212-222 | The cost becomes the spell-cost formula of the three inputs and nothing else changes |
| `LedgerProperties.SpellInputNormalises` | src/app/modules/mana-tracker/mana-tracker.component.ts:124-159 | A changed spell input is raised to its floor (0 for range and base cost sum, 1 for patterns), the other inputs are kept, the cost is recomputed from the three inputs, and the spell invariant is preserved; an unchanged input changes nothing |
| `ManaTracker.Component.SetSpellInput` | src/app/modules/mana-tracker/mana-tracker.component.ts:124-159 | A spell input edit with its handler and re-entries leaves the ledger's `SetSpellInput` state |
| `ManaTracker.Component.constructor` | src/app/modules/mana-tracker/mana-tracker.component.ts:62-85 | Start-up takes the stored record or the defaults, computes the maximum without clamping the balance, builds the validator with the loaded balance, and takes both snapshots |
| `LedgerProperties.InitialCappedIff` | src/app/modules/mana-tracker/mana-tracker.component.ts:73-78 | Start-up keeps the loaded balance, sets the maximum to the formula of the loaded inputs, and is capped if and only if the loaded balance is not negative and, without gluttony, at most that maximum or 0 |
| `LedgerProperties.ReloadAfterFalsyBonusBreaksCap` | src/app/modules/mana-tracker/mana-tracker.component.ts:73-120 | A capped session whose bonus is cleared to 0 saves a maximum of 40 with a balance of 40; reloading recomputes a maximum of 30 and keeps 40, which is not capped |
| `LedgerProperties.StepKeepsCapped` | src/app/modules/mana-tracker/mana-tracker.component.ts:86-122 | Every user action except an uncapping blessing switch keeps balance ≥ 0 and, without gluttony, balance ≤ maximum (or 0) |
| `LedgerProperties.RunKeepsCapped` | src/app/modules/mana-tracker/mana-tracker.component.ts:86-210 | Any sequence of user actions in which no blessing switch is uncapping, from the state it is taken in, keeps that invariant |
| `LedgerProperties.BlessingSwitchCanBreakCap` | src/app/modules/mana-tracker/mana-tracker.component.ts:88-98 | Leaving gluttony for a blessing with the same maximum reports no maximum change, so a balance of 50 stays above a maximum of 10 |
| `LedgerProperties.SpendThenOverfillScenario` | src/app/modules/mana-tracker/mana-tracker.component.ts:171-210 | Level 3 with 30 capacity: a full balance minus a 12-mana spell is 18, and adding 50 caps back at 30 |
| `LedgerProperties.GluttonyScenario` | src/app/modules/mana-tracker/mana-tracker.component.ts:86-111 | Switching to gluttony raises the maximum but not the balance of 30, and adding 1000 is not capped |

## Left out

- Reading and writing browser local storage and the JSON encoding (lines
  290-300): start-up takes the stored record as "some record or none", and the
  save after each max-mana event is not modelled. A malformed stored text makes
  `JSON.parse` throw in the code; that path is not modelled.
- Angular and RxJS plumbing: dependency injection, the display signals and
  their effect (lines 36-38, 47-59, 78, 92, 98), the overlay service (lines 63,
  168) and the subscription wiring. The value-change re-entries are explicit
  method calls.
- The level, blessing and turn-pool tables, `calculateSpellCost` and
  `SpellCostValidator` are not part of this model. They are the function-valued
  fields of `Tables`. The tables are integer-valued, so a fractional multiplier
  is not modelled. Monotonicity of the cost formula is not assumed.
- The spell form's validity is one predicate of the validator's balance and the
  spell values. It stands for `SpellCostValidator` together with any control
  validators the form helper sets up. The whole-form rewrite at line 117
  re-runs validation with unchanged values and reports no change.
- A cleared numeric control (null) is modelled as 0. The handlers treat
  `!value` the same for null and 0, but the table lookups do not: no handler
  resets a cleared level, so it stays null, and the turn end at line 200 adds
  the pool of the key "null", which is undefined. The sum is NaN, and the
  current-mana handler's `!value` branch (line 108) then writes 0, wiping the
  balance; the model adds the pool of level 0 instead. NaN is not modelled.
- The tables are total: every level has an integer capacity and turn pool and
  every blessing a multiplier. A level outside the tables, and a cleared level
  at the next recompute, make the maximum NaN at line 284 in the code; after
  that no upper clamp fires (`x > NaN` is false at lines 96, 110 and 184), so
  the balance has no upper bound, and a turn end with such a level wipes it as
  above. `StepKeepsCapped` and `RunKeepsCapped` hold for the model's total
  tables only, not for such levels.
- `ManaTracker.Component.SetAmount`: the amount handler writes 0 when it sees 0,
  and that write re-triggers the handler with no change guard. The method
  stops after one write, as the guarded handler does; the endless re-entry is
  modelled on values (see Findings).
- Control values are unbounded integers, whereas the controls hold JavaScript
  numbers (doubles). A fractional value such as 2.5 is accepted by the code and
  is not modelled, nor is floating-point rounding or overflow to infinity.
- `LedgerProperties.SetMaxManaClamps`: stated for a non-negative balance, which
  every handled write establishes; a negative balance loaded from storage is
  excluded.
- `LedgerProperties.ResetManaFills`: stated for a non-negative balance, which
  every handled write establishes; a negative balance loaded from storage is
  excluded.
- `LedgerProperties.AddRemoveOutcome`: stated for a non-negative balance, which
  every handled write establishes; a negative balance loaded from storage is
  excluded.
- `LedgerProperties.RunKeepsCapped`: stated for runs without an uncapping
  blessing switch, because the code does not keep the invariant across one
  (`BlessingSwitchCanBreakCap`).
- `src/app/modules/root/root.component.ts` is an empty routing shell with no
  logic.

## Findings

| source | as written | input that shows it | evidently intended | confidence | as-written member | corrected member |
|---|---|---|---|---|---|---|
| src/app/modules/mana-tracker/mana-tracker.component.ts:161-164 | The amount handler writes 0 for any falsy or negative value, including a 0 it has just written, and each write re-enters the handler | the amount 0, written by `addRemove` at line 181 or by the user | write 0 only when the value is not already 0, so the handler settles after one write | not executed | `LedgerProperties.AmountHandlerNeverSettles` (on `ManaLedger.AmountHandlerWrite`) | `LedgerProperties.GuardedAmountHandlerSettles` (on `ManaLedger.GuardedAmountHandlerWrite`, used by `ManaLedger.SetAmount`) |
