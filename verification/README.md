# Mini-game logic of the learning platform, in Dafny

This project models the game logic of three browser mini-games. Each click handler becomes a pure
transition function over an immutable state record. Each delayed timer callback becomes an explicit
event of its own.

- **Mini Business Tycoon** (`business.dfy`, module `Business`). A lemonade-stall ledger with
  capital, inventory, selling price, days sold, and day and total profit. The status is
  `Setup | Playing | Won | Lost`. Buying turns all the capital into whole units at 30 each. A price
  below 30 is refused. Selling a day follows a four-tier demand schedule (15, 10, 5 or 2 customers).
  After the seventh day a score of `min(100, totalProfit/5)` is reported to the host.
- **Molecule Builder** (`molecule.dfy`, module `Molecule`). There are three challenges: water,
  oxygen gas and methane. The player adds atoms, and the formula line is shown. A completion check
  scores the challenge once. A delayed step then moves on, or after the last challenge opens the
  completion dialog. "Clear" and "play again" are modelled too.
- **Technology Village Light-Up** (`circuit.dfy`, module `Circuit`). A square grid of wire tiles:
  3×3 on level 1, 4×4 on level 2 and 5×5 after that. A click turns one tile by a quarter turn. The
  level is won when every tile is at 180 degrees. "Next level" is offered below level 3.

`wrappers.dfy` holds the shared `Option` type.

What is proved, in short:

- **Business ledger.** On every event sequence from the opening state, capital, inventory and
  total profit stay non-negative. `capital + 30·inventory − totalProfit` stays 1000. The price is
  unset or at least 30, and the game is never lost.
- **Molecule Builder.** Under the atom-button gating, the length-and-membership completion check
  is exactly multiset equality. Without the gating it is weaker: three hydrogens pass as water.
  The loop-based formula routine agrees with a reference definition: one token per distinct element,
  in first-occurrence order.
- **Circuit grid.** A click changes only the clicked tile's rotation. Four clicks on one tile
  change nothing. A built grid covers every board cell exactly once. The win check runs on the grid
  as it was before the click, so a win is seen one click late.

At price 50 the second tier applies, so 10 units are sold (`Business.SellAtFifty`).

Two consequences of the business game's button gating are proved:

- The buy button is shown only in `Setup`. So once the stock is sold out while `Playing`, no
  offered click sells another day (`Business.SoldOutIsDeadEnd`).
- At price 40 the stock runs out after three days (`Business.SoldOutAtForty`). At price 80 it lasts
  exactly seven days and wins with the full score (`Business.WinAtEighty`).

## Model

| member | source | states |
|---|---|---|
| `Business.Buy` | src/components/games/MiniBusinessTycoon.tsx:32-64 | With stock left, only the message changes. With capital below 30, only the status (now `Lost`) and the message change. Otherwise the capital goes into whole units: positive stock, `capital' + 30·units = capital`, `0 ≤ capital' < 30`, status `Playing`. |
| `Business.SetPrice` | src/components/games/MiniBusinessTycoon.tsx:66-82 | A price below 30 changes nothing but the message. Otherwise only the price (and message) changes. "Unset or at least 30" is preserved. |
| `Business.DemandCap` | src/components/games/MiniBusinessTycoon.tsx:101-111 | The daily cap is one of 15, 10, 5, 2. It is 15 exactly below 50, 10 exactly on [50,80), 5 exactly on [80,130) and 2 exactly from 130 on. |
| `Business.DemandCapAntitone` | src/components/games/MiniBusinessTycoon.tsx:101-111 | A higher price never gets a higher cap. |
| `Business.SellDay` | src/components/games/MiniBusinessTycoon.tsx:84-127 | Without a price, or without stock, only the message changes. Otherwise `0 < sold ≤ inventory` and `sold ≤ cap`, with equality unless stock runs out. Stock drops by `sold`; capital rises by `sold·price`. Day profit is `sold·(price−30)` and is added to the total. Exactly one day is counted. Day profit stays non-negative once the price covers the cost. |
| `Business.FinalScore` | src/components/games/MiniBusinessTycoon.tsx:131 | The score is at most 100. It is non-negative for non-negative profit, equals 100 exactly from a profit of 500 on, and is profit/5 below that. |
| `Business.EndDay` | src/components/games/MiniBusinessTycoon.tsx:129-140 | From the seventh day on, the timer sets `Won` and reports `FinalScore(totalProfit)` for the profit it captured; that score is at most 100, and at least 0 when the profit is non-negative. Before that it only clears the message and reports nothing. |
| `Business.StepPreservesInv` | src/components/games/MiniBusinessTycoon.tsx:32-140 | Every click and timer keeps the ledger invariant: non-negative resources, price unset or ≥ 30, the conservation law, status never `Lost`. |
| `Business.LedgerConserved` | src/components/games/MiniBusinessTycoon.tsx:18-127 | On every event sequence from the opening state: capital, inventory and total profit ≥ 0; `capital + 30·inventory − totalProfit = 1000`; price unset or ≥ 30; never lost. |
| `Business.SeventhDayWins` | src/components/games/MiniBusinessTycoon.tsx:113-136 | A sale followed by its own timer wins with a score in [0,100] from the seventh day on (the count may already be past seven when a sale beats the previous day's timer). An earlier day leaves the status alone. |
| `Business.WonIsTerminal` | src/components/games/MiniBusinessTycoon.tsx:178-269 | No event the screen offers moves a won game out of `Won`. |
| `Business.SoldOutIsDeadEnd` | src/components/games/MiniBusinessTycoon.tsx:178-245 | While playing with no stock, no offered event changes stock or the day count. |
| `Business.FirstPurchase` | src/components/games/MiniBusinessTycoon.tsx:18-61 | From the opening state, buying gives 33 units and 10 capital. |
| `Business.SellAtFifty` | src/components/games/MiniBusinessTycoon.tsx:101-127 | At price 50, ten units are sold for a profit of 200. |
| `Business.SoldOutAtForty` | src/components/games/MiniBusinessTycoon.tsx:101-127 | At price 40 the stock is gone after three days, still `Playing`. |
| `Business.WinAtEighty` | src/components/games/MiniBusinessTycoon.tsx:101-136 | At price 80, seven days sell all 33 units for a profit of 1650, and the timer wins with score 100. |
| `Molecule.TallyElements` | src/pages/student/games/MoleculeBuilder.tsx:93-96 | The tally's key order is the first-occurrence order. Its keys are exactly the placed elements, and each count is that element's multiplicity. |
| `Molecule.JoinTally` | src/pages/student/games/MoleculeBuilder.tsx:99-105 | Joining one token per table entry, given a table whose counts are the placed multiplicities, yields the reference join of tokens in table order. |
| `Molecule.GenerateFormula` | src/pages/student/games/MoleculeBuilder.tsx:90-106 | The loop-based routine equals the reference formula (one token per distinct element, in first-occurrence order). It is empty exactly for no atoms. |
| `Molecule.Token` | src/pages/student/games/MoleculeBuilder.tsx:100-104 | A token starts with the element symbol. It is the bare symbol exactly for a count of 1. For counts 0 and 2–9 it is the symbol plus the subscript digit of that count. For other counts it is the symbol plus "undefined", as indexing past the digit string gives. |
| `Molecule.DistinctSpec` | src/pages/student/games/MoleculeBuilder.tsx:93-99 | The formula's element order has no repeats and holds exactly the placed elements. |
| `Molecule.DistinctFirstOccurrenceOrder` | src/pages/student/games/MoleculeBuilder.tsx:93-99 | Elements appear in the order of their first occurrence among the placed atoms. |
| `Molecule.FormulaEmptyIff` | src/pages/student/games/MoleculeBuilder.tsx:90-106 | The formula is the empty string exactly when no atom is placed. |
| `Molecule.WaterFormula` | src/pages/student/games/MoleculeBuilder.tsx:90-106 | Atoms H, H, O give the formula H₂O. |
| `Molecule.ExpandSpec` | src/pages/student/games/MoleculeBuilder.tsx:130-132 | The expanded target's length is the sum of the counts, and each element occurs as often as the target asks. |
| `Molecule.IsCorrectOrderIndependent` | src/pages/student/games/MoleculeBuilder.tsx:134-136 | The completion test gives the same answer for any reordering of the placed atoms. |
| `Molecule.ExactAtomsAreCorrect` | src/pages/student/games/MoleculeBuilder.tsx:134-136 | Exactly the target's atoms, in any order, pass the completion test. |
| `Molecule.ThreeHydrogensPassAsWater` | src/pages/student/games/MoleculeBuilder.tsx:129-136 | The test alone is weaker than multiset equality: H, H, H passes for water. |
| `Molecule.GatedCheckIsMultisetEquality` | src/pages/student/games/MoleculeBuilder.tsx:126-136 | When no element is placed more often than the target asks, the test holds exactly when the placed atoms equal the target as a multiset. |
| `Molecule.AddAtom` | src/pages/student/games/MoleculeBuilder.tsx:157-172 | After completion, adding is a no-op. Otherwise exactly one atom of the given element is appended and nothing else changes. |
| `Molecule.Clear` | src/pages/student/games/MoleculeBuilder.tsx:174-182 | The build area is emptied, selection and flags are cleared, and challenge index and score are kept. |
| `Molecule.Retry` | src/pages/student/games/MoleculeBuilder.tsx:184-194 | Every field is back at its opening value, and the completion dialog is closed. |
| `Molecule.CheckCompletion` | src/pages/student/games/MoleculeBuilder.tsx:126-140 | The complete flag becomes set exactly when it was set or the non-empty placed atoms pass the test. The score rises by exactly 1 only on that first completion. Nothing else changes. |
| `Molecule.Advance` | src/pages/student/games/MoleculeBuilder.tsx:141-153 | Below the last challenge, the index rises by 1 and the atoms, selection and complete flag are cleared, and nothing else changes. At the last challenge, only the completion dialog opens. |
| `Molecule.ChallengesHaveDistinctElements` | src/pages/student/games/MoleculeBuilder.tsx:32-70 | No challenge lists the same element twice, so each atom button stands for one element. |
| `Molecule.AddPreservesInv` | src/pages/student/games/MoleculeBuilder.tsx:376-383 | An offered atom click never puts more atoms of an element than the target asks for. |
| `Molecule.GatedPlayChecksMultisets` | src/pages/student/games/MoleculeBuilder.tsx:376-383 | In every state gated play reaches, the index is in [0,3). The completion check fires exactly when the placed atoms equal the target as a multiset. |
| `Circuit.GridSize` | src/pages/student/games/TechnologyVillageLightUp.tsx:48 | The grid is 3 wide on level 1, 4 on level 2 and 5 otherwise. |
| `Circuit.NewTile` | src/pages/student/games/TechnologyVillageLightUp.tsx:53-63 | A fresh tile has id `i`, rotation 0 or 90, one to four connections, and is not lit. |
| `Circuit.GridShape` | src/pages/student/games/TechnologyVillageLightUp.tsx:46-64 | A built grid has n² tiles. Tile `i` has id `i`, x = `(i mod n)·80` and y = `(i div n)·80`, and every tile is fresh. |
| `Circuit.LaidOutCoversBoard` | src/pages/student/games/TechnologyVillageLightUp.tsx:52-63 | Every cell of the n×n board holds exactly one tile of a built grid. |
| `Circuit.InitializeCircuits` | src/pages/student/games/TechnologyVillageLightUp.tsx:46-69 | The loop builds exactly the reference grid, clears the selection and the won flag, and keeps the level. |
| `Circuit.JsRem` | src/pages/student/games/TechnologyVillageLightUp.tsx:75 | The remainder agrees with Dafny's `%` for a non-negative dividend. For a negative dividend it lies in (−m, 0]. In both cases the dividend minus the remainder is a multiple of m. |
| `Circuit.Turn` | src/pages/student/games/TechnologyVillageLightUp.tsx:75 | A quarter turn keeps a right-angle rotation a right angle, always changes it, and lands in [0,360) from a non-negative rotation. |
| `Circuit.FourTurnsIdentity` | src/pages/student/games/TechnologyVillageLightUp.tsx:75 | Four quarter turns give back the starting rotation. |
| `Circuit.RotateFrame` | src/pages/student/games/TechnologyVillageLightUp.tsx:71-78 | A click changes only the tiles with the clicked id, and only their rotation. |
| `Circuit.RotateKeepsRange` | src/pages/student/games/TechnologyVillageLightUp.tsx:71-78 | Rotations stay in {0, 90, 180, 270} and connections in [1,4]. |
| `Circuit.FourClicksIdentity` | src/pages/student/games/TechnologyVillageLightUp.tsx:71-78 | Four clicks on the same tile leave the whole grid unchanged. |
| `Circuit.WinIgnoresWiring` | src/pages/student/games/TechnologyVillageLightUp.tsx:82-88 | Two grids with the same rotations win alike, whatever their connections and positions. |
| `Circuit.RotateCircuit` | src/pages/student/games/TechnologyVillageLightUp.tsx:71-88 | The grid is rotated. The won flag becomes set exactly when it was set or the grid before the click passes the win test. |
| `Circuit.WinSeenOneClickLate` | src/pages/student/games/TechnologyVillageLightUp.tsx:71-88 | The click that brings the last tile to 180 leaves the flag unset. The next click on that tile sets it while turning the tile to 270. |
| `Circuit.NextLevel` | src/pages/student/games/TechnologyVillageLightUp.tsx:94-97 | The level rises by one, the won flag is cleared, and the grid is kept until the rebuild. |
| `Circuit.ReachableInRange` | src/pages/student/games/TechnologyVillageLightUp.tsx:191-223 | In every reachable state the level is 1, 2 or 3, every rotation is a right angle, and connections are in [1,4]. |

## Left out

- Rendering, CSS keyframes, dialogs, fullscreen and sound toggles, and navigation are user-interface
  concerns. The layout-only subject page is not part of this model.
- Randomness and the clock are inputs. Tile draws are reals in [0,1). Atom positions are reals in
  [-100,100). The atom id's `Date.now` part is an arbitrary integer stamp.
- Timers are separate events. `Business.Step` accepts a `DayTimer(days, totalProfit)` with any
  arguments at any time, even from `Setup`, so `Business.LedgerConserved` is proved over this
  larger set of runs than the game can produce. There are no races: the stale snapshot
  written back by the message-clearing timer after a refused buy (MiniBusinessTycoon.tsx:38) is
  modelled as a plain message clear. Clicking "Clear" during the molecule game's 1500 ms advance
  window is not modelled.
- The molecule game's completion check runs in the source as an effect after every change to the
  atoms (MoleculeBuilder.tsx:126-155). The model makes it a separate `Check` event that a run may
  fire at any time or skip, so `Molecule.GatedPlayChecksMultisets` is proved over this larger set
  of runs.
- `Molecule.Advance`: it tests the current challenge index, where the source tests the index its
  timer captured. The two agree when no race occurs.
- Floating-point display math is left out: the profit margin with `toFixed`, bond-line square roots
  and the trigonometric atom layout. The final score is an exact real.
- The `onComplete` host callback is the score returned by `Business.EndDay`, not a foreign call.
- The molecule game's `validBonds`, valences and emoji are not used by any logic, so they are not
  modelled. Neither is the atom table beyond its four element symbols.
- No bound on the molecule score by the challenge count is stated. Clear
  during the advance window, which is excluded, could score one challenge twice.
