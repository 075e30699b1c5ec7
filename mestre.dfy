/** The ability program: a board with ships at fixed places, three 5×5 ability
    patterns (cone, cross, diamond) and the overlay that stamps a pattern onto
    the board, centred at an origin and clipped at the edges. */
module BatalhaNavalMestre {
  import opened Tabuleiro

  const TAMANHO_HABILIDADE: int := 5
  const HABILIDADE_AFETADA: int := 5
  const HABILIDADE_NAO_AFETADA: int := 0
  const HABILIDADE_AFETAR: int := 1

  /** The pattern's middle row and column, 5 / 2; also the overlay's offset. */
  const CENTRO: int := TAMANHO_HABILIDADE / 2

  /** The eight ship cells that posicionarNavios writes, in its order. */
  const NAVIOS_FIXOS: seq<(int, int)> :=
    [(2, 2), (2, 3), (2, 4), (5, 7), (6, 7), (7, 7), (9, 0), (9, 1)]

  predicate EhHabilidade(h: Matriz) {
    Retangular(h, TAMANHO_HABILIDADE, TAMANHO_HABILIDADE)
  }

  function Abs(x: int): int { if x < 0 then -x else x }

  /** The flag a builder writes for a cell the shape does or does not cover. */
  function Marca(afeta: bool): int {
    if afeta then HABILIDADE_AFETAR else HABILIDADE_NAO_AFETADA
  }

  // The three shapes, as conditions on a pattern cell (i, j).

  predicate NoCone(i: int, j: int) { j >= CENTRO - i && j <= CENTRO + i }

  predicate NaCruz(i: int, j: int) { i == CENTRO || j == CENTRO }

  predicate NoOctaedro(i: int, j: int) { Abs(i - CENTRO) + Abs(j - CENTRO) <= CENTRO }

  function MatrizCone(): (h: Matriz)
    ensures EhHabilidade(h)
  {
    seq(TAMANHO_HABILIDADE, i => seq(TAMANHO_HABILIDADE, j => Marca(NoCone(i, j))))
  }

  function MatrizCruz(): (h: Matriz)
    ensures EhHabilidade(h)
  {
    seq(TAMANHO_HABILIDADE, i => seq(TAMANHO_HABILIDADE, j => Marca(NaCruz(i, j))))
  }

  function MatrizOctaedro(): (h: Matriz)
    ensures EhHabilidade(h)
  {
    seq(TAMANHO_HABILIDADE, i => seq(TAMANHO_HABILIDADE, j => Marca(NoOctaedro(i, j))))
  }

  function Min(a: int, b: int): int { if a <= b then a else b }

  function UmSe(b: bool): nat { if b then 1 else 0 }

  /** The count of a five-cell row, cell by cell. */
  lemma ContarNaLinhaCinco(s: seq<int>, v: int)
    requires |s| == TAMANHO_HABILIDADE
    ensures ContarNaLinha(s, v) == UmSe(s[0] == v) + UmSe(s[1] == v) + UmSe(s[2] == v) + UmSe(s[3] == v) + UmSe(s[4] == v)
  {
    assert ContarNaLinha(s[4..], v) == UmSe(s[4] == v) by { assert s[4..][1..] == []; }
    assert ContarNaLinha(s[3..], v) == UmSe(s[3] == v) + ContarNaLinha(s[4..], v) by { assert s[3..][1..] == s[4..]; }
    assert ContarNaLinha(s[2..], v) == UmSe(s[2] == v) + ContarNaLinha(s[3..], v) by { assert s[2..][1..] == s[3..]; }
    assert ContarNaLinha(s[1..], v) == UmSe(s[1] == v) + ContarNaLinha(s[2..], v) by { assert s[1..][1..] == s[2..]; }
  }

  /** The count of a five-row matrix, row by row. */
  lemma ContarCinco(m: Matriz, v: int)
    requires |m| == TAMANHO_HABILIDADE
    ensures Contar(m, v) == ContarNaLinha(m[0], v) + ContarNaLinha(m[1], v) + ContarNaLinha(m[2], v)
      + ContarNaLinha(m[3], v) + ContarNaLinha(m[4], v)
  {
    assert Contar(m[4..], v) == ContarNaLinha(m[4], v) by { assert m[4..][1..] == []; }
    assert Contar(m[3..], v) == ContarNaLinha(m[3], v) + Contar(m[4..], v) by { assert m[3..][1..] == m[4..]; }
    assert Contar(m[2..], v) == ContarNaLinha(m[2], v) + Contar(m[3..], v) by { assert m[2..][1..] == m[3..]; }
    assert Contar(m[1..], v) == ContarNaLinha(m[1], v) + Contar(m[2..], v) by { assert m[1..][1..] == m[2..]; }
  }

  /** The cone widens by two per row: row i covers min(2i+1, 5) cells, row 0
      only the middle column, row 4 all five, and 19 cells in all. */
  lemma ContagemCone()
    ensures forall j :: 0 <= j < TAMANHO_HABILIDADE ==> (MatrizCone()[0][j] == HABILIDADE_AFETAR <==> j == CENTRO)
    ensures forall j :: 0 <= j < TAMANHO_HABILIDADE ==> MatrizCone()[4][j] == HABILIDADE_AFETAR
    ensures forall i :: 0 <= i < TAMANHO_HABILIDADE ==>
      ContarNaLinha(MatrizCone()[i], HABILIDADE_AFETAR) == Min(2 * i + 1, TAMANHO_HABILIDADE)
    ensures Contar(MatrizCone(), HABILIDADE_AFETAR) == 19
  {
    var h := MatrizCone();
    forall i | 0 <= i < TAMANHO_HABILIDADE
      ensures ContarNaLinha(h[i], HABILIDADE_AFETAR) == Min(2 * i + 1, TAMANHO_HABILIDADE)
    {
      ContarNaLinhaCinco(h[i], HABILIDADE_AFETAR);
    }
    ContarCinco(h, HABILIDADE_AFETAR);
  }

  /** The cross covers the middle row and the middle column: 9 cells. */
  lemma ContagemCruz()
    ensures forall i :: 0 <= i < TAMANHO_HABILIDADE ==>
      ContarNaLinha(MatrizCruz()[i], HABILIDADE_AFETAR) == if i == CENTRO then TAMANHO_HABILIDADE else 1
    ensures Contar(MatrizCruz(), HABILIDADE_AFETAR) == 9
  {
    var h := MatrizCruz();
    forall i | 0 <= i < TAMANHO_HABILIDADE
      ensures ContarNaLinha(h[i], HABILIDADE_AFETAR) == if i == CENTRO then TAMANHO_HABILIDADE else 1
    {
      ContarNaLinhaCinco(h[i], HABILIDADE_AFETAR);
    }
    ContarCinco(h, HABILIDADE_AFETAR);
  }

  /** The diamond covers 1 + 3 + 5 + 3 + 1 = 13 cells. */
  lemma ContagemOctaedro()
    ensures forall i :: 0 <= i < TAMANHO_HABILIDADE ==>
      ContarNaLinha(MatrizOctaedro()[i], HABILIDADE_AFETAR) == 2 * (CENTRO - Abs(i - CENTRO)) + 1
    ensures Contar(MatrizOctaedro(), HABILIDADE_AFETAR) == 13
  {
    var h := MatrizOctaedro();
    forall i | 0 <= i < TAMANHO_HABILIDADE
      ensures ContarNaLinha(h[i], HABILIDADE_AFETAR) == 2 * (CENTRO - Abs(i - CENTRO)) + 1
    {
      ContarNaLinhaCinco(h[i], HABILIDADE_AFETAR);
    }
    ContarCinco(h, HABILIDADE_AFETAR);
  }

  /** Board cell (l, c) is the image of an affected pattern cell when the
      pattern is centred at (origemLinha, origemColuna). */
  predicate ImagemAfetada(h: Matriz, origemLinha: int, origemColuna: int, l: int, c: int)
    requires EhHabilidade(h)
  {
    var i := l - origemLinha + CENTRO;
    var j := c - origemColuna + CENTRO;
    0 <= i < TAMANHO_HABILIDADE && 0 <= j < TAMANHO_HABILIDADE && h[i][j] == HABILIDADE_AFETAR
  }

  /** The board after the overlay, cell by cell. */
  function Sobrepor(t: Matriz, h: Matriz, origemLinha: int, origemColuna: int): (r: Matriz)
    requires EhTabuleiro(t) && EhHabilidade(h)
    ensures EhTabuleiro(r)
  {
    seq(TAMANHO_TABULEIRO, l requires 0 <= l < TAMANHO_TABULEIRO =>
      seq(TAMANHO_TABULEIRO, c requires 0 <= c < TAMANHO_TABULEIRO =>
        if ImagemAfetada(h, origemLinha, origemColuna, l, c) then HABILIDADE_AFETADA else t[l][c]))
  }

  /** Every affected pattern cell whose image lies on the board writes 5
      there, whatever the board held, a ship included. */
  lemma SobreporEscreve(t: Matriz, h: Matriz, origemLinha: int, origemColuna: int, i: int, j: int)
    requires EhTabuleiro(t) && EhHabilidade(h)
    requires 0 <= i < TAMANHO_HABILIDADE && 0 <= j < TAMANHO_HABILIDADE
    requires h[i][j] == HABILIDADE_AFETAR
    requires NoTabuleiro(origemLinha - CENTRO + i, origemColuna - CENTRO + j)
    ensures Sobrepor(t, h, origemLinha, origemColuna)[origemLinha - CENTRO + i][origemColuna - CENTRO + j]
      == HABILIDADE_AFETADA
  {
  }

  /** A board cell that is not the image of any affected pattern cell keeps
      its value; pattern cells that fall off the board change nothing. */
  lemma SobreporPreserva(t: Matriz, h: Matriz, origemLinha: int, origemColuna: int, l: int, c: int)
    requires EhTabuleiro(t) && EhHabilidade(h) && NoTabuleiro(l, c)
    requires forall i, j ::
      0 <= i < TAMANHO_HABILIDADE && 0 <= j < TAMANHO_HABILIDADE && h[i][j] == HABILIDADE_AFETAR ==>
        origemLinha - CENTRO + i != l || origemColuna - CENTRO + j != c
    ensures Sobrepor(t, h, origemLinha, origemColuna)[l][c] == t[l][c]
  {
  }

  /** Stamping the same pattern at the same origin a second time changes nothing. */
  lemma SobreporIdempotente(t: Matriz, h: Matriz, origemLinha: int, origemColuna: int)
    requires EhTabuleiro(t) && EhHabilidade(h)
    ensures Sobrepor(Sobrepor(t, h, origemLinha, origemColuna), h, origemLinha, origemColuna)
      == Sobrepor(t, h, origemLinha, origemColuna)
  {
    var uma := Sobrepor(t, h, origemLinha, origemColuna);
    MatrizIgual(Sobrepor(uma, h, origemLinha, origemColuna), uma);
  }

  /** The cross centred at (6, 6), as the demonstration stamps it: its arm ends
      and centre become 5, cells off the cross keep their value. */
  lemma CruzEm66(t: Matriz)
    requires EhTabuleiro(t)
    ensures var r := Sobrepor(t, MatrizCruz(), 6, 6);
      r[4][6] == HABILIDADE_AFETADA && r[8][6] == HABILIDADE_AFETADA &&
      r[6][4] == HABILIDADE_AFETADA && r[6][8] == HABILIDADE_AFETADA &&
      r[6][6] == HABILIDADE_AFETADA &&
      r[3][6] == t[3][6] && r[6][9] == t[6][9] && r[5][5] == t[5][5]
  {
  }

  /** On the demonstration board the cross at (6, 6) hides the ship at (6, 7). */
  lemma CruzCobreNavio()
    ensures NaviosFixos(Agua())[6][7] == NAVIO
    ensures Sobrepor(NaviosFixos(Agua()), MatrizCruz(), 6, 6)[6][7] == HABILIDADE_AFETADA
  {
    MarcarCelula(Agua(), NAVIOS_FIXOS, NAVIO, 6, 7);
    assert MatrizCruz()[2][3] == HABILIDADE_AFETAR;
  }

  /** The diamond centred at (1, 1), as the third demonstration stamps it: an
      on-board cell becomes 5 exactly when it lies within distance 2 of (1, 1),
      every other cell keeps its value. The ship at (2, 2) is overwritten, the
      pattern cells that would fall at (-1, 1) and (1, -1) are skipped, and
      (3, 2) and (2, 3), at distance 3, keep water and a ship. */
  lemma OctaedroEm11()
    ensures var t := NaviosFixos(Agua());
      var r := Sobrepor(t, MatrizOctaedro(), 1, 1);
      forall l, c :: NoTabuleiro(l, c) ==>
        r[l][c] == if Abs(l - 1) + Abs(c - 1) <= CENTRO then HABILIDADE_AFETADA else t[l][c]
    ensures var t := NaviosFixos(Agua());
      var r := Sobrepor(t, MatrizOctaedro(), 1, 1);
      t[2][2] == NAVIO && r[2][2] == HABILIDADE_AFETADA && r[3][2] == AGUA && r[2][3] == NAVIO
  {
    var t := NaviosFixos(Agua());
    OctaedroEm11Celulas(t);
    NaviosFixosCelulas(Agua());
    assert t[2][2] == NAVIO && t[3][2] == AGUA && t[2][3] == NAVIO;
  }

  /** On any board, the diamond at (1, 1) covers the on-board cells within
      distance 2 of (1, 1) and no other. */
  lemma OctaedroEm11Celulas(t: Matriz)
    requires EhTabuleiro(t)
    ensures forall l, c :: NoTabuleiro(l, c) ==>
      Sobrepor(t, MatrizOctaedro(), 1, 1)[l][c] == if Abs(l - 1) + Abs(c - 1) <= CENTRO then HABILIDADE_AFETADA else t[l][c]
  {
  }

  /** The board with the eight fixed ships written onto it. */
  function NaviosFixos(t: Matriz): (r: Matriz)
    requires EhTabuleiro(t)
    ensures EhTabuleiro(r)
  {
    Marcar(t, NAVIOS_FIXOS, NAVIO)
  }

  /** One of the eight cells posicionarNavios writes. */
  predicate NavioFixo(l: int, c: int) {
    (l == 2 && 2 <= c <= 4) || (c == 7 && 5 <= l <= 7) || (l == 9 && 0 <= c <= 1)
  }

  lemma NavioFixoNaLista(l: int, c: int)
    ensures NavioFixo(l, c) <==> (l, c) in NAVIOS_FIXOS
  {
  }

  /** The fixed placement changes exactly the eight listed cells, to NAVIO. */
  lemma NaviosFixosCelulas(t: Matriz)
    requires EhTabuleiro(t)
    ensures forall l, c :: NoTabuleiro(l, c) ==>
      NaviosFixos(t)[l][c] == if (l, c) in NAVIOS_FIXOS then NAVIO else t[l][c]
  {
    forall l, c | NoTabuleiro(l, c)
      ensures NaviosFixos(t)[l][c] == if (l, c) in NAVIOS_FIXOS then NAVIO else t[l][c]
    {
      MarcarCelula(t, NAVIOS_FIXOS, NAVIO, l, c);
    }
  }

  /** On a board without ships, the fixed placement yields exactly eight ship cells. */
  lemma NaviosFixosContagem(t: Matriz)
    requires EhTabuleiro(t)
    requires forall k :: 0 <= k < |NAVIOS_FIXOS| ==> t[NAVIOS_FIXOS[k].0][NAVIOS_FIXOS[k].1] != NAVIO
    ensures Contar(NaviosFixos(t), NAVIO) == Contar(t, NAVIO) + 8
  {
    MarcarContagem(t, NAVIOS_FIXOS, NAVIO);
  }

  /** Reset followed by the fixed placement, as every demonstration starts:
      exactly eight ship cells. */
  lemma TabuleiroInicialContagem()
    ensures Contar(NaviosFixos(Agua()), NAVIO) == 8
  {
    AguaSemNavios();
    NaviosFixosContagem(Agua());
  }

  /** A board that differs from `antes` exactly by ships on the eight fixed
      cells is the fixed placement applied to `antes`. */
  lemma NaviosFixosEquivale(antes: Matriz, depois: Matriz)
    requires EhTabuleiro(antes) && EhTabuleiro(depois)
    requires forall l, c :: NoTabuleiro(l, c) ==>
      depois[l][c] == if NavioFixo(l, c) then NAVIO else antes[l][c]
    ensures depois == NaviosFixos(antes)
  {
    NaviosFixosCelulas(antes);
    forall l, c { NavioFixoNaLista(l, c); }
    MatrizIgual(depois, NaviosFixos(antes));
  }

  /** posicionarNavios: the eight fixed cells become ships, every other cell
      keeps its value. */
  method PosicionarNavios(t: array2<int>)
    requires t.Length0 == TAMANHO_TABULEIRO && t.Length1 == TAMANHO_TABULEIRO
    modifies t
    ensures forall l, c :: NoTabuleiro(l, c) ==>
      t[l, c] == if NavioFixo(l, c) then NAVIO else old(t[l, c])
    ensures Conteudo(t) == NaviosFixos(old(Conteudo(t)))
  {
    ghost var antes := Conteudo(t);
    t[2, 2] := NAVIO;
    t[2, 3] := NAVIO;
    t[2, 4] := NAVIO;
    t[5, 7] := NAVIO;
    t[6, 7] := NAVIO;
    t[7, 7] := NAVIO;
    t[9, 0] := NAVIO;
    t[9, 1] := NAVIO;
    assert forall l, c :: NoTabuleiro(l, c) ==>
      t[l, c] == if NavioFixo(l, c) then NAVIO else antes[l][c];
    ghost var depois := Conteudo(t);
    NaviosFixosEquivale(antes, depois);
  }

  /** criarHabilidadeCone: cell (i, j) is 1 exactly when 2 - i <= j <= 2 + i. */
  method CriarHabilidadeCone(h: array2<int>)
    requires h.Length0 == TAMANHO_HABILIDADE && h.Length1 == TAMANHO_HABILIDADE
    modifies h
    ensures forall i, j :: 0 <= i < TAMANHO_HABILIDADE && 0 <= j < TAMANHO_HABILIDADE ==>
      h[i, j] == if CENTRO - i <= j <= CENTRO + i then HABILIDADE_AFETAR else HABILIDADE_NAO_AFETADA
    ensures Conteudo(h) == MatrizCone()
  {
    var centro := TAMANHO_HABILIDADE / 2;
    for i := 0 to TAMANHO_HABILIDADE
      invariant forall a, b :: 0 <= a < i && 0 <= b < TAMANHO_HABILIDADE ==> h[a, b] == Marca(NoCone(a, b))
    {
      for j := 0 to TAMANHO_HABILIDADE
        invariant forall a, b :: 0 <= a < i && 0 <= b < TAMANHO_HABILIDADE ==> h[a, b] == Marca(NoCone(a, b))
        invariant forall b :: 0 <= b < j ==> h[i, b] == Marca(NoCone(i, b))
      {
        if j >= centro - i && j <= centro + i {
          h[i, j] := HABILIDADE_AFETAR;
        } else {
          h[i, j] := HABILIDADE_NAO_AFETADA;
        }
      }
    }
    MatrizIgual(Conteudo(h), MatrizCone());
  }

  /** criarHabilidadeCruz: cell (i, j) is 1 exactly when i == 2 or j == 2. */
  method CriarHabilidadeCruz(h: array2<int>)
    requires h.Length0 == TAMANHO_HABILIDADE && h.Length1 == TAMANHO_HABILIDADE
    modifies h
    ensures forall i, j :: 0 <= i < TAMANHO_HABILIDADE && 0 <= j < TAMANHO_HABILIDADE ==>
      h[i, j] == if i == CENTRO || j == CENTRO then HABILIDADE_AFETAR else HABILIDADE_NAO_AFETADA
    ensures Conteudo(h) == MatrizCruz()
  {
    var centro := TAMANHO_HABILIDADE / 2;
    for i := 0 to TAMANHO_HABILIDADE
      invariant forall a, b :: 0 <= a < i && 0 <= b < TAMANHO_HABILIDADE ==> h[a, b] == Marca(NaCruz(a, b))
    {
      for j := 0 to TAMANHO_HABILIDADE
        invariant forall a, b :: 0 <= a < i && 0 <= b < TAMANHO_HABILIDADE ==> h[a, b] == Marca(NaCruz(a, b))
        invariant forall b :: 0 <= b < j ==> h[i, b] == Marca(NaCruz(i, b))
      {
        if i == centro || j == centro {
          h[i, j] := HABILIDADE_AFETAR;
        } else {
          h[i, j] := HABILIDADE_NAO_AFETADA;
        }
      }
    }
    MatrizIgual(Conteudo(h), MatrizCruz());
  }

  /** criarHabilidadeOctaedro: cell (i, j) is 1 exactly when its Manhattan
      distance from the centre (2, 2) is at most 2. */
  method CriarHabilidadeOctaedro(h: array2<int>)
    requires h.Length0 == TAMANHO_HABILIDADE && h.Length1 == TAMANHO_HABILIDADE
    modifies h
    ensures forall i, j :: 0 <= i < TAMANHO_HABILIDADE && 0 <= j < TAMANHO_HABILIDADE ==>
      h[i, j] == if Abs(i - CENTRO) + Abs(j - CENTRO) <= CENTRO then HABILIDADE_AFETAR else HABILIDADE_NAO_AFETADA
    ensures Conteudo(h) == MatrizOctaedro()
  {
    var centro := TAMANHO_HABILIDADE / 2;
    for i := 0 to TAMANHO_HABILIDADE
      invariant forall a, b :: 0 <= a < i && 0 <= b < TAMANHO_HABILIDADE ==> h[a, b] == Marca(NoOctaedro(a, b))
    {
      for j := 0 to TAMANHO_HABILIDADE
        invariant forall a, b :: 0 <= a < i && 0 <= b < TAMANHO_HABILIDADE ==> h[a, b] == Marca(NoOctaedro(a, b))
        invariant forall b :: 0 <= b < j ==> h[i, b] == Marca(NoOctaedro(i, b))
      {
        if Abs(i - centro) + Abs(j - centro) <= centro {
          h[i, j] := HABILIDADE_AFETAR;
        } else {
          h[i, j] := HABILIDADE_NAO_AFETADA;
        }
      }
    }
    MatrizIgual(Conteudo(h), MatrizOctaedro());
  }

  /** sobreporHabilidade: for any integer origin, every in-bounds image of an
      affected pattern cell becomes 5; every other cell, and the pattern, stay. */
  method SobreporHabilidade(t: array2<int>, h: array2<int>, origemLinha: int, origemColuna: int)
    requires t.Length0 == TAMANHO_TABULEIRO && t.Length1 == TAMANHO_TABULEIRO
    requires h.Length0 == TAMANHO_HABILIDADE && h.Length1 == TAMANHO_HABILIDADE
    modifies t
    ensures forall l, c :: NoTabuleiro(l, c) ==>
      t[l, c] == if ImagemAfetada(old(Conteudo(h)), origemLinha, origemColuna, l, c)
                 then HABILIDADE_AFETADA else old(t[l, c])
    ensures Conteudo(h) == old(Conteudo(h))
    ensures Conteudo(t) == Sobrepor(old(Conteudo(t)), Conteudo(h), origemLinha, origemColuna)
  {
    ghost var antes := Conteudo(t);
    ghost var padrao := Conteudo(h);
    assert t != h by { assert t.Length0 != h.Length0; }
    var offset := TAMANHO_HABILIDADE / 2;
    for i := 0 to TAMANHO_HABILIDADE
      invariant Conteudo(h) == padrao
      invariant forall l, c :: NoTabuleiro(l, c) ==>
        t[l, c] == if ImagemAfetada(padrao, origemLinha, origemColuna, l, c) && l - origemLinha + CENTRO < i
                   then HABILIDADE_AFETADA else antes[l][c]
    {
      for j := 0 to TAMANHO_HABILIDADE
        invariant Conteudo(h) == padrao
        invariant forall l, c :: NoTabuleiro(l, c) ==>
          t[l, c] == if ImagemAfetada(padrao, origemLinha, origemColuna, l, c) &&
                        (l - origemLinha + CENTRO < i || (l - origemLinha + CENTRO == i && c - origemColuna + CENTRO < j))
                     then HABILIDADE_AFETADA else antes[l][c]
      {
        var tabuleiroLinha := origemLinha - offset + i;
        var tabuleiroColuna := origemColuna - offset + j;
        if tabuleiroLinha >= 0 && tabuleiroLinha < TAMANHO_TABULEIRO &&
           tabuleiroColuna >= 0 && tabuleiroColuna < TAMANHO_TABULEIRO {
          if h[i, j] == HABILIDADE_AFETAR {
            t[tabuleiroLinha, tabuleiroColuna] := HABILIDADE_AFETADA;
          }
        }
      }
    }
    MatrizIgual(Conteudo(t), Sobrepor(antes, padrao, origemLinha, origemColuna));
  }
}
