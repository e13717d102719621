# Minesweeper grid engine

This is a Dafny model of the game logic of the Minesweeper editor plugin (`FMinesweeperPluginModule`):

- **Guard.** Pressing "Generate New Grid" runs the guard on the width, height and mine count typed into the text boxes.
- **InitGame.** InitGame builds a row-major `m_GridCellData` grid of default `CellData` cells. It then places the bombs one at a time, drawing random cells until it finds one that is not yet a bomb. For each new bomb it raises the surrounding-bomb count of every in-grid cell of that bomb's 3×3 block.
- **RevealCell.** A click on a cell's button calls RevealCell. It disables the button, then acts on the cell:
  - A bomb shows "X" and calls GameLost, which labels every bomb "X".
  - A cell with bombs around it shows its count.
  - A cell with no bomb around it calls RevealCell on each cell of its block (the flood fill).
- **GameIsWon.** GameIsWon reports whether every cell that is not a bomb has been disabled.

Layout:

- `grid.dfy` (module `Grid`): the cell, the grid, and the predicates the operations keep. The predicates say:
  - the counts match the bomb layout;
  - every revealed empty cell has its block open;
  - the labels agree with the state;
  - what won and lost mean.
- `setup.dfy` (module `Setup`): the guard, the grid construction, bomb placement and InitGame.
- `reveal.dfy` (module `Reveal`): RevealCell and its flood fill, GameLost and GameIsWon.
- `findings.dfy` (module `Findings`): the two defects listed under Findings, modelled as written.

Each piece of state is represented as follows:

- **Button.** A cell's button becomes two plain fields: `revealed` (the button is disabled) and `shown` (its label: blank, a number or "X").
- **Randomness.** The random generator becomes a sequence of drawn positions supplied by the caller.
- **Grid.** A grid is an immutable value. Every operation returns the new grid.

## Model

| member | source | states |
|---|---|---|
| Grid.Update | Plugins/MinesweeperPlugin/Source/MinesweeperPlugin/Public/MinesweeperPlugin.h:36 | Writing one cell of the row-major grid keeps the grid's size, sets that cell, and leaves every other cell as it was. |
| Grid.SameLayoutBombs | Plugins/MinesweeperPlugin/Source/MinesweeperPlugin/Public/MinesweeperPlugin.h:51 | Two states with the same bombs and counts have the same bomb set. If the counts matched the layout in the first state, they still do in the second. |
| Setup.CheckInput | Plugins/MinesweeperPlugin/Source/MinesweeperPlugin/Private/MinesweeperPlugin.cpp:238-261 | The guard refuses exactly when the width, height or mine count is negative, or when there are more mines than cells. Zero dimensions and a full grid of mines pass. Each refusal reason holds exactly when its test is the first to fail. |
| Setup.EmptyGrid | Plugins/MinesweeperPlugin/Source/MinesweeperPlugin/Public/MinesweeperPlugin.h:11-17 | The default-celled grid has the requested size and no bombs. Its counts match the layout (all zero). No cell is revealed and every label is blank. |
| Setup.IncrementBombCountOfSurroundingCells | Plugins/MinesweeperPlugin/Source/MinesweeperPlugin/Private/MinesweeperPlugin.cpp:450-462 | The nested loops compute the reference grid `Bumped`: a cell's count rises by one exactly when the cell lies in the in-grid 3×3 block of the new bomb, and nothing else changes. |
| Setup.PlaceBombFacts | Plugins/MinesweeperPlugin/Source/MinesweeperPlugin/Private/MinesweeperPlugin.cpp:490-492 | Placing a bomb on a safe cell adds exactly that cell to the bomb set. It changes no revealed flag and no label. It raises a cell's count by one exactly when the cell is in the bomb's block. |
| Setup.PlaceBombKeepsCounts | Plugins/MinesweeperPlugin/Source/MinesweeperPlugin/Private/MinesweeperPlugin.cpp:450-462 | If every count equalled the number of bombs in its block before a placement, this still holds after it. |
| Setup.PlaceDrawsView | Plugins/MinesweeperPlugin/Source/MinesweeperPlugin/Private/MinesweeperPlugin.cpp:478-493 | Placing bombs changes no button: the revealed flags and labels are those of the grid it started from. |
| Setup.PlaceDrawsBombs | Plugins/MinesweeperPlugin/Source/MinesweeperPlugin/Private/MinesweeperPlugin.cpp:478-493 | A completed placement of `mines` bombs keeps the old bombs and adds exactly `mines` new, distinct bombs, each at a drawn position. |
| Setup.PlaceDrawsCounts | Plugins/MinesweeperPlugin/Source/MinesweeperPlugin/Private/MinesweeperPlugin.cpp:478-493 | After the bomb loop, every cell's count still equals the number of bombs in its block. |
| Setup.PlaceDrawsFails | Plugins/MinesweeperPlugin/Source/MinesweeperPlugin/Private/MinesweeperPlugin.cpp:483-488 | If the draws run out before every bomb is placed, the draws held fewer than `mines` distinct cells that were free at the start. |
| Setup.PlaceDrawsSucceeds | Plugins/MinesweeperPlugin/Source/MinesweeperPlugin/Private/MinesweeperPlugin.cpp:478-493 | The rejection-sampling loop places every bomb exactly when the draws contain at least `mines` distinct cells that are not bombs yet. |
| Setup.SkipBombs | Plugins/MinesweeperPlugin/Source/MinesweeperPlugin/Private/MinesweeperPlugin.cpp:483-488 | The do-while loop skips exactly the draws that land on bombs and stops at the first draw that does not. Skipping does not change what the rest of the placement produces. |
| Setup.PlaceBomb | Plugins/MinesweeperPlugin/Source/MinesweeperPlugin/Private/MinesweeperPlugin.cpp:490-492 | Marking a safe cell as a bomb and bumping its block keeps the grid's shape. What the placement changes is stated by `Setup.PlaceBombFacts`. |
| Setup.SpawnBomb | Plugins/MinesweeperPlugin/Source/MinesweeperPlugin/Private/MinesweeperPlugin.cpp:490-492 | The two statements, the bomb mark and then the bump loop, compute the reference placement `PlaceBomb`. |
| Setup.PlaceDraws | Plugins/MinesweeperPlugin/Source/MinesweeperPlugin/Private/MinesweeperPlugin.cpp:477-493 | The recursive reference for the bomb loop works through the draws. Each round skips draws that land on bombs and places a bomb at the first free draw. It gives `None` when the draws run out, and otherwise a grid of the same shape. What it places is stated by `Setup.PlaceDrawsView`, `Setup.PlaceDrawsBombs`, `Setup.PlaceDrawsCounts` and `Setup.PlaceDrawsSucceeds`. |
| Setup.PlaceBombs | Plugins/MinesweeperPlugin/Source/MinesweeperPlugin/Private/MinesweeperPlugin.cpp:477-493 | The imperative loop, which counts rounds down, produces the recursive reference placement `PlaceDraws` on every input. |
| Setup.FreshPlacement | Plugins/MinesweeperPlugin/Source/MinesweeperPlugin/Private/MinesweeperPlugin.cpp:464-494 | On a freshly built grid the placement completes exactly when at least `mines` distinct cells are drawn. The game it then yields is new: exactly `mines` bombs, counts matching them, nothing revealed, every label blank, not lost. |
| Setup.InitGame | Plugins/MinesweeperPlugin/Source/MinesweeperPlugin/Private/MinesweeperPlugin.cpp:464-494 | InitGame builds a `width × height` grid. It succeeds exactly when enough distinct cells are drawn. On success it holds exactly `mines` bombs, every count equals the number of bombs in its block, no cell is revealed and every label is blank. |
| Setup.GenerateNewGrid | Plugins/MinesweeperPlugin/Source/MinesweeperPlugin/Private/MinesweeperPlugin.cpp:238-291 | A new grid is refused exactly when the guard fails, giving the guard's reason. Otherwise the result is a new game of the requested size and mine count, unless the draws run out. They run out exactly when they hold fewer distinct cells than mines. |
| Reveal.RevealCell | Plugins/MinesweeperPlugin/Source/MinesweeperPlugin/Private/MinesweeperPlugin.cpp:329-368 | For a click on a cell, see the list below the table. |
| Reveal.RevealHidden | Plugins/MinesweeperPlugin/Source/MinesweeperPlugin/Private/MinesweeperPlugin.cpp:334-366 | A click on a still-enabled button reveals it. A bomb loses the game and every bomb shows "X". Only an empty cell starts a cascade, which reveals no bomb other than the clicked cell. The layout, the loss status of a safe click, the label agreement and the completed flood fills are kept. Every cell it reveals is reached from the clicked cell through neighbouring empty cells that the same click revealed. |
| Reveal.RevealBlock | Plugins/MinesweeperPlugin/Source/MinesweeperPlugin/Private/MinesweeperPlugin.cpp:353-366 | The recursive loop over the empty cell's block leaves every in-grid cell of the block revealed. It completes the flood fill of every empty cell it reveals and reveals no bomb. It keeps the layout and the label agreement. It reveals nothing beyond the cells reached from the empty cell through neighbouring empty cells it revealed itself. |
| Reveal.BombClick | Plugins/MinesweeperPlugin/Source/MinesweeperPlugin/Private/MinesweeperPlugin.cpp:341-346 | Revealing a hidden bomb loses the game. Every bomb shows "X", no other cell's revealed flag changes, and labels that agreed with the state still agree. |
| Reveal.NumberClick | Plugins/MinesweeperPlugin/Source/MinesweeperPlugin/Private/MinesweeperPlugin.cpp:347-352 | Revealing a safe cell with bombs around it reveals only that cell and labels it with its count. This does not change whether the game is lost. |
| Reveal.EmptyClick | Plugins/MinesweeperPlugin/Source/MinesweeperPlugin/Private/MinesweeperPlugin.cpp:353-366 | Revealing an empty cell opens its whole block and completes every flood fill it starts. With counts that match the layout it reveals no bomb and does not change whether the game is lost. Every cell it reveals is reached from the clicked cell through empty cells it revealed. |
| Reveal.EmptyClickKeeps | Plugins/MinesweeperPlugin/Source/MinesweeperPlugin/Private/MinesweeperPlugin.cpp:353-366 | The same click keeps labels that agreed with the state in agreement, and keeps completed flood fills complete. |
| Reveal.ConfinedStep | Plugins/MinesweeperPlugin/Source/MinesweeperPlugin/Private/MinesweeperPlugin.cpp:356-364 | If the cascade so far and the recursive call on a neighbour of the empty cell each reveal only cells reachable from their own starting cell, then everything revealed so far is reachable from the empty cell. The route goes through that neighbour, which the call revealed. |
| Reveal.EmptyBlockHasNoBomb | Plugins/MinesweeperPlugin/Source/MinesweeperPlugin/Private/MinesweeperPlugin.cpp:353-366 | When the counts match the layout, no cell in the block of a zero-count cell is a bomb. This is why the recursion never reveals a bomb. |
| Reveal.LostKept | Plugins/MinesweeperPlugin/Source/MinesweeperPlugin/Private/MinesweeperPlugin.cpp:329-368 | A lost game stays lost in every later state. A click that reveals no bomb leaves the loss status unchanged. |
| Reveal.ClosedKept | Plugins/MinesweeperPlugin/Source/MinesweeperPlugin/Private/MinesweeperPlugin.cpp:353-366 | If every revealed empty cell had its block open before a click that completes its own flood fills, this still holds after it. |
| Reveal.MineFreeFieldOpens | Plugins/MinesweeperPlugin/Source/MinesweeperPlugin/Private/MinesweeperPlugin.cpp:353-366 | On a grid with no bomb whose flood fills are complete, one revealed cell means every cell is revealed, and the game is won. |
| Reveal.GameIsWon | Plugins/MinesweeperPlugin/Source/MinesweeperPlugin/Private/MinesweeperPlugin.cpp:370-384 | The row-by-row scan answers true exactly when every cell that is not a bomb is revealed. |
| Reveal.GameLost | Plugins/MinesweeperPlugin/Source/MinesweeperPlugin/Private/MinesweeperPlugin.cpp:386-400 | The scan sets the label of every bomb to "X". It changes nothing else: no revealed flag, no count, no label of a safe cell. |
| Reveal.LossLabelsAgree | Plugins/MinesweeperPlugin/Source/MinesweeperPlugin/Private/MinesweeperPlugin.cpp:341-346 | After a lost game's GameLost pass, the game is still lost and every label agrees with the state again: bombs show "X" and safe cells keep their labels. |
| Findings.CheckInputAsWritten | Plugins/MinesweeperPlugin/Source/MinesweeperPlugin/Private/MinesweeperPlugin.cpp:256 | The guard with the cell count computed as a 32-bit product never accepts a mine count the exact guard refuses. It agrees with the exact guard whenever the product fits in an `int`. |
| Findings.OverflowRefusesValidGrids | Plugins/MinesweeperPlugin/Source/MinesweeperPlugin/Private/MinesweeperPlugin.cpp:256 | The exact guard accepts a 65536 × 65536 grid with one mine and a 46341 × 46341 grid with none. The guard as written refuses both as having too many mines. |
| Findings.GameIsWonAsWritten | Plugins/MinesweeperPlugin/Source/MinesweeperPlugin/Private/MinesweeperPlugin.cpp:370-384 | The scan bounded by the live text-box fields answers true exactly when every safe cell inside those bounds is revealed. |
| Findings.WonWithinGridSize | Plugins/MinesweeperPlugin/Source/MinesweeperPlugin/Private/MinesweeperPlugin.cpp:370-384 | When the fields still hold the grid's size, that check is the intended win test. |
| Findings.StaleHeightReportsWin | Plugins/MinesweeperPlugin/Source/MinesweeperPlugin/Private/MinesweeperPlugin.cpp:334-338 | Take a 2 × 1 grid without mines after the height box received non-numeric text (height -1), and click the left cell. The click disables that cell and runs the win test while the right cell is still hidden. The game is not won, yet the win test as written reports a win. |

For a click on a cell, `Reveal.RevealCell` states:

- Only later states result: the same bombs and counts, and every revealed cell still revealed.
- The clicked cell ends up revealed.
- Clicking an already revealed cell changes nothing (idempotence).
- Every cell the click reveals is reached from the clicked cell by a route of neighbouring cells. Each cell on the route before the last is empty and was revealed by this click. So the cascade stays inside the connected region of empty cells and its border, and never passes a numbered cell or a bomb.
- A cell that is not empty reveals only itself, so recursion happens only from zero-count cells.
- Every empty cell it reveals gets its whole block revealed.
- With counts that match the layout, the cascade reveals no bomb except perhaps the clicked cell.
- A hidden bomb loses the game and every bomb shows "X".
- A safe click leaves the loss status unchanged.
- Labels that agreed with the state keep agreeing.
- Completed flood fills stay complete.
- On a mine-free grid, one click reveals everything and wins.

## Left out

- **Widgets and UI.** The buttons, text blocks, slots, menus, tab spawning, module startup and shutdown, and command registration are not modelled. They are presentation only. A button's enabled state and text are the `revealed` and `shown` fields.
- **Logging.** UE_LOG calls are not modelled, including the "YOU WON!" message that RevealCell logs after calling GameIsWon and the "YOU LOST!" message. They have no effect on the state. GameIsWon is modelled as the standalone test it is.
- **Text-box parsing.** OnWidthInput, OnHeightInput and OnNumberOfMinesInput turn text into the integers the guard reads. The model takes those integers as inputs. A non-numeric entry is the value -1, which the guard refuses.
- **Randomness.** `FMath::RandRange` is replaced by the caller's sequence of drawn positions, each inside the grid. InitGame keeps drawing until a free cell turns up. The model reports `None` (`DrawsExhausted` from GenerateNewGrid) when the supplied draws run out first, because an unbounded random loop has no termination argument.
- **Clicks outside the grid.** OnGridCellClicked forwards clicks to RevealCell. Only buttons that exist can be clicked, so RevealCell requires a position inside the grid.
- **Live fields versus grid size.** GameIsWon, GameLost, RevealCell's bounds test and IncrementBombCountOfSurroundingCells bound their loops by the live fields `m_GridWidth` and `m_GridHeight`. The model bounds them by the size of the grid that was built. The two agree until a text box is edited after the grid is generated. The consequence for GameIsWon is under Findings. A larger live value would index past the arrays, which is undefined behaviour and is not modelled. The bounds test of RevealCell also cuts the cascade short: once the height box holds -1, a click on an empty cell reveals only that cell.
- **No terminal state.** The plugin never blocks clicks after a win or a loss, and neither does the model. `Won` ignores bombs, so a lost game can also be won in the model's sense. Loss labels the bombs "X" but does not disable their buttons. The model follows the code.
- **Count width.** Counts are at most 9, so the `int` counter cannot overflow and is modelled as a `nat`.
- Setup.CheckInput: it compares the mine count with the exact product `width * height`. The compiled guard uses a 32-bit product, so this is the corrected guard. The wrapping guard is `Findings.CheckInputAsWritten`.
- Findings.CheckInputAsWritten: signed overflow is undefined behaviour in C++. The model takes the usual two's-complement wrap-around.
- Setup.GenerateNewGrid: it models the guard and the call to InitGame only. The construction of the button widgets is not modelled.
- Setup.PlaceBomb: its own contract states only the grid's shape. The bombs, buttons and counts it changes are stated by `Setup.PlaceBombFacts`, which keeps the proofs that unfold `PlaceBomb` small.
- Setup.PlaceDraws: its own contract states only the grid's shape. Its results are characterised by the `Setup.PlaceDraws…` lemmas for the same reason.

## Findings

| source | as written | input that shows it | evidently intended | confidence | as-written member | corrected member |
|---|---|---|---|---|---|---|
| Plugins/MinesweeperPlugin/Source/MinesweeperPlugin/Private/MinesweeperPlugin.cpp:256 | The mine count is compared with `m_GridWidth * m_GridHeight` computed in 32-bit `int`, which wraps. | Width 65536, height 65536, 1 mine: the product wraps to 0 and the mine is refused as too many. The same happens with width 46341, height 46341 and 0 mines, where the product wraps negative. | Refuse only when the mine count exceeds the true number of cells. | not executed | Findings.CheckInputAsWritten, Findings.OverflowRefusesValidGrids | Setup.CheckInput |
| Plugins/MinesweeperPlugin/Source/MinesweeperPlugin/Private/MinesweeperPlugin.cpp:370-384 | GameIsWon scans `m_GridHeight` rows and `m_GridWidth` columns. These fields follow the text boxes as they are edited, not the grid on screen. | Generate a 2 × 1 grid with 0 mines, type non-numeric text into the height box (`m_GridHeight` = -1), then click the left cell. GameIsWon sees the left cell revealed and the right cell hidden, scans no rows and returns true. The only effect is the "YOU WON!" log at cpp:338, which the model leaves out. | Scan the grid as built: won exactly when every safe cell is revealed. | not executed | Findings.GameIsWonAsWritten, Findings.StaleHeightReportsWin | Reveal.GameIsWon |
