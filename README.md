# Batalha Naval — board, ability overlay and ship placement

This project models the board logic of two small naval-battle programs that share a
10×10 integer board (`int tabuleiro[10][10]`):

- **Batalha_Naval_Mestre.c**, the ability program. It resets the board and writes
  ships at eight fixed cells. It builds three 5×5 ability patterns: a cone widening
  downwards, a cross, and a diamond ("octaedro"). It then stamps a pattern onto the
  board centred at an origin, clipping at the edges and writing 5 over whatever the
  cell held, ships included.
- **Batalha_Naval_Aventureiro.c**, the placement program. It resets the board and
  places three-cell ships in four directions. `verificarPosicao` checks that every
  cell is on the board and not already a ship. `posicionarNavio` writes all three
  cells or none.

Cell codes are the programs' own integers: AGUA 0, NAVIO 3 and HABILIDADE_AFETADA 5
on the board, and HABILIDADE_NAO_AFETADA 0 and HABILIDADE_AFETAR 1 in a pattern.

Layout:

- `tabuleiro.dfy` (module `Tabuleiro`) holds what both programs share: the board
  constants, and `InicializarTabuleiro`, which is the same nested loop in both files
  (Batalha_Naval_Mestre.c:82-89 and Batalha_Naval_Aventureiro.c:69-75). It also holds
  `Conteudo`, the value (a `seq<seq<int>>`) an `array2<int>` holds, and `Marcar`,
  which writes a list of cells. Cell counting lives here too, with the lemma that
  writing `v` to distinct cells that did not hold `v` adds exactly one `v` per cell.
- `mestre.dfy` (module `BatalhaNavalMestre`): the fixed ships, the three pattern
  builders and the overlay.
- `aventureiro.dfy` (module `BatalhaNavalAventureiro`): validation and placement.

Every C function that fills an array in place is a Dafny method over `array2<int>`,
with the same loops and `modifies` on the array it writes. Its `ensures` give the new
contents cell by cell and as a value (`Conteudo(t) == F(old(Conteudo(t)))`). The
lemmas about the value functions (`Sobrepor`, `NaviosFixos`, `Marcar`, the pattern
matrices) state the properties. `VerificarPosicao` only reads the board; it has no
`modifies` clause, so it cannot change the board.

The cone's comments in Batalha_Naval_Mestre.c (:110-111, :120) say that row i is
`i * 2 + 1` cells wide, growing by two per row. The column loop at :119 visits only
columns 0 to 4, so from row 2 on every row has 5 cells: rows 3 and 4 have 5, not 7
and 9. That is why `ContagemCone` states min(2i+1, 5), which is what the code does.

## Model

| member | source | states |
|---|---|---|
| Tabuleiro.InicializarTabuleiro | Batalha_Naval_Mestre.c:82-89 | every one of the 10×10 cells is AGUA afterwards, whatever it held; the same loop is Batalha_Naval_Aventureiro.c:69-75 |
| Tabuleiro.AguaSemNavios | Batalha_Naval_Aventureiro.c:69-75 | a reset board holds no NAVIO cell |
| Tabuleiro.MarcarCelula | Batalha_Naval_Aventureiro.c:112-127 | writing a list of cells sets exactly the listed cells to the value and leaves every other cell as it was |
| Tabuleiro.MarcarContagem | Batalha_Naval_Aventureiro.c:112-127 | writing `v` to distinct cells none of which held `v` raises the count of `v` by exactly the number of cells |
| BatalhaNavalMestre.PosicionarNavios | Batalha_Naval_Mestre.c:96-105 | the cells (2,2), (2,3), (2,4), (5,7), (6,7), (7,7), (9,0) and (9,1) become NAVIO and every other cell keeps its value; the new board is `NaviosFixos` of the old one |
| BatalhaNavalMestre.NavioFixoNaLista | Batalha_Naval_Mestre.c:97-104 | the closed form of the eight fixed cells (row 2, columns 2 to 4; column 7, rows 5 to 7; row 9, columns 0 and 1) is exactly the list the function writes |
| BatalhaNavalMestre.NaviosFixosCelulas | Batalha_Naval_Mestre.c:96-105 | the fixed placement, as a value, changes exactly the eight cells, to NAVIO |
| BatalhaNavalMestre.NaviosFixosContagem | Batalha_Naval_Mestre.c:96-105 | on a board with no ship on those cells, the fixed placement adds exactly eight NAVIO cells |
| BatalhaNavalMestre.TabuleiroInicialContagem | Batalha_Naval_Mestre.c:46-47 | reset followed by the fixed placement, as each demonstration starts, gives a board with exactly eight NAVIO cells |
| BatalhaNavalMestre.CriarHabilidadeCone | Batalha_Naval_Mestre.c:114-130 | cell (i, j) is 1 exactly when 2 − i ≤ j ≤ 2 + i, and 0 otherwise |
| BatalhaNavalMestre.ContagemCone | Batalha_Naval_Mestre.c:118-129 | row i of the cone has min(2i+1, 5) affected cells; row 0 only column 2; row 4 all five; 19 in all |
| BatalhaNavalMestre.CriarHabilidadeCruz | Batalha_Naval_Mestre.c:137-151 | cell (i, j) is 1 exactly when i = 2 or j = 2, and 0 otherwise |
| BatalhaNavalMestre.ContagemCruz | Batalha_Naval_Mestre.c:141-150 | the middle row of the cross has 5 affected cells, every other row 1; 9 in all |
| BatalhaNavalMestre.CriarHabilidadeOctaedro | Batalha_Naval_Mestre.c:158-173 | cell (i, j) is 1 exactly when \|i − 2\| + \|j − 2\| ≤ 2, and 0 otherwise |
| BatalhaNavalMestre.ContagemOctaedro | Batalha_Naval_Mestre.c:162-172 | row i of the diamond has 2(2 − \|i − 2\|) + 1 affected cells, that is 1, 3, 5, 3, 1: 13 in all |
| BatalhaNavalMestre.SobreporHabilidade | Batalha_Naval_Mestre.c:184-209 | for any integer origin, a board cell becomes 5 exactly when it is the image (origin − 2 + i, origin − 2 + j) of a pattern cell equal to 1; every other cell keeps its old value; the pattern is not changed; no access leaves either array |
| BatalhaNavalMestre.SobreporEscreve | Batalha_Naval_Mestre.c:195-205 | every pattern cell equal to 1 whose image lies in [0,10)² makes that board cell 5, whatever it held, a NAVIO included |
| BatalhaNavalMestre.SobreporPreserva | Batalha_Naval_Mestre.c:199-206 | a board cell that is not the image of any affected pattern cell keeps its value; pattern cells whose image is off the board are skipped |
| BatalhaNavalMestre.SobreporIdempotente | Batalha_Naval_Mestre.c:191-208 | stamping the same pattern at the same origin twice gives the same board as stamping it once |
| BatalhaNavalMestre.CruzEm66 | Batalha_Naval_Mestre.c:60 | the cross at origin (6,6) marks (4,6), (8,6), (6,4), (6,8) and (6,6) as 5, and leaves (3,6), (6,9) and (5,5) as they were |
| BatalhaNavalMestre.OctaedroEm11 | Batalha_Naval_Mestre.c:66-70 | on the demonstration board the diamond at origin (1,1) makes an on-board cell 5 exactly when it lies within distance 2 of (1,1), and leaves every other cell as it was; the ship at (2,2) is overwritten, while (3,2) and (2,3), at distance 3, keep water and a ship |
| BatalhaNavalMestre.OctaedroEm11Celulas | Batalha_Naval_Mestre.c:191-208 | on any board, the diamond stamped at origin (1,1) makes an on-board cell 5 exactly when it lies within distance 2 of (1,1); every other cell keeps its value |
| BatalhaNavalMestre.CruzCobreNavio | Batalha_Naval_Mestre.c:56-60 | on the demonstration board the ship cell (6,7) is overwritten by the cross at (6,6) |
| BatalhaNavalAventureiro.AlvoPasso | Batalha_Naval_Aventureiro.c:145-161 | the k-th cell of a ship is k steps of its direction's offset from the anchor; the offsets are (0,+1), (+1,0), (+1,+1) and (+1,−1) |
| BatalhaNavalAventureiro.AlvosDistintos | Batalha_Naval_Aventureiro.c:142-161 | the three cells of a ship in any of the four directions are pairwise different |
| BatalhaNavalAventureiro.VerificarPosicao | Batalha_Naval_Aventureiro.c:141-177 | returns 0 or 1: 1 exactly when the direction is 0 to 3 and each of the three cells is in [0,10)² and not NAVIO; any other direction gives 0; the board is only read |
| BatalhaNavalAventureiro.DiagonalDecrescenteColunaNegativa | Batalha_Naval_Aventureiro.c:158-169 | going down-left from column 1 the third cell has column −1, and the placement is rejected, not wrapped |
| BatalhaNavalAventureiro.PosicionarNavio | Batalha_Naval_Aventureiro.c:108-131 | returns 1 exactly when the placement is valid, and then the three cells are NAVIO and every other cell is unchanged; otherwise it returns 0 and the board is untouched; `tipoNavio` has no effect |
| BatalhaNavalAventureiro.PosicionarEquivale | Batalha_Naval_Aventureiro.c:112-127 | writing a valid placement, as a value, changes exactly its three cells, to NAVIO |
| BatalhaNavalAventureiro.ContagemAposPosicionar | Batalha_Naval_Aventureiro.c:110-128 | a successful placement raises the number of NAVIO cells by exactly 3 |
| BatalhaNavalAventureiro.PosicionarDuasVezes | Batalha_Naval_Aventureiro.c:172 | after a ship is written, the same placement is no longer valid, because its first cell is now NAVIO |

## Left out

- `exibirTabuleiro` in both programs (Batalha_Naval_Mestre.c:216-230, Batalha_Naval_Aventureiro.c:81-97): console output only.
- Both `main` drivers. The placement program's loops draw rows, columns and directions from `rand()` seeded by `time(NULL)`, and they retry without bound until two straight and two diagonal ships are placed. Randomness and the clock are outside the model, and so is the probabilistic termination of those loops. The ability program's `main` is a fixed call sequence; its origins (3,4), (6,6) and (1,1) appear only in the concrete lemmas `CruzEm66` and `CruzCobreNavio` (the cross at (6,6)) and `OctaedroEm11` and `OctaedroEm11Celulas` (the diamond at (1,1)). The cone at (3,4) has no such lemma.
- BatalhaNavalAventureiro.VerificarPosicao: the model uses unbounded integers, so it does not model C `int` overflow of `coluna + i`, `linha + i` or, for direction 3, `coluna - i` when an anchor lies within 2 of the `int` limits. The programs only pass anchors in 0..9.
- BatalhaNavalMestre.SobreporHabilidade: likewise, it does not model overflow of `origemLinha - offset + i` for origins near the `int` limits. The programs only pass origins in 1..6.
- `posicionarNavio`'s `switch` has no `default` branch. It is only reached after validation, which rejects every direction outside 0..3, so the model's final `else` stands for case 3.
- The patterns are `int` matrices, as in the C code, not booleans. The overlay marks a cell only where the pattern holds exactly 1 (`HABILIDADE_AFETAR`), which is what the code compares against.
