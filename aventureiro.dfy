/** The placement program: ships of three cells are checked against the board
    edges and the ships already there, and written only when every cell is
    free. */
module BatalhaNavalAventureiro {
  import opened Tabuleiro

  const TAMANHO_NAVIO: int := 3

  /** The four directions: 0 horizontal, 1 vertical, 2 and 3 the diagonals. */
  predicate DirecaoValida(direcao: int) { 0 <= direcao <= 3 }

  /** The step (Δlinha, Δcoluna) of each direction. */
  function Passo(direcao: int): (int, int)
    requires DirecaoValida(direcao)
  {
    match direcao
    case 0 => (0, 1)
    case 1 => (1, 0)
    case 2 => (1, 1)
    case _ => (1, -1)
  }

  /** The k-th cell of a ship anchored at (linha, coluna), as each case of the
      direction switch computes it. */
  function Alvo(linha: int, coluna: int, direcao: int, k: int): (int, int)
    requires DirecaoValida(direcao)
  {
    match direcao
    case 0 => (linha, coluna + k)
    case 1 => (linha + k, coluna)
    case 2 => (linha + k, coluna + k)
    case _ => (linha + k, coluna - k)
  }

  /** The k-th cell is k steps of the direction's offset from the anchor. */
  lemma AlvoPasso(linha: int, coluna: int, direcao: int, k: int)
    requires DirecaoValida(direcao)
    ensures Alvo(linha, coluna, direcao, k) == (linha + k * Passo(direcao).0, coluna + k * Passo(direcao).1)
  {
  }

  /** The ship's cells, in the order they are checked and written. */
  function Alvos(linha: int, coluna: int, direcao: int): (cs: seq<(int, int)>)
    requires DirecaoValida(direcao)
    ensures |cs| == TAMANHO_NAVIO
  {
    seq(TAMANHO_NAVIO, k => Alvo(linha, coluna, direcao, k))
  }

  /** The direction is one of the four, and every cell of the ship is on the
      board and not already a ship. */
  predicate PosicaoLivre(m: Matriz, linha: int, coluna: int, direcao: int)
    requires EhTabuleiro(m)
  {
    DirecaoValida(direcao) &&
    forall k :: 0 <= k < TAMANHO_NAVIO ==>
      NoTabuleiro(Alvo(linha, coluna, direcao, k).0, Alvo(linha, coluna, direcao, k).1) &&
      m[Alvo(linha, coluna, direcao, k).0][Alvo(linha, coluna, direcao, k).1] != NAVIO
  }

  /** The three cells of a ship are different cells. */
  lemma AlvosDistintos(linha: int, coluna: int, direcao: int)
    requires DirecaoValida(direcao)
    ensures Distintas(Alvos(linha, coluna, direcao))
  {
  }

  /** A successful placement adds exactly three ship cells. */
  lemma ContagemAposPosicionar(m: Matriz, linha: int, coluna: int, direcao: int)
    requires EhTabuleiro(m) && PosicaoLivre(m, linha, coluna, direcao)
    ensures CelulasEm(m, Alvos(linha, coluna, direcao))
    ensures Contar(Marcar(m, Alvos(linha, coluna, direcao), NAVIO), NAVIO) == Contar(m, NAVIO) + TAMANHO_NAVIO
  {
    AlvosDistintos(linha, coluna, direcao);
    MarcarContagem(m, Alvos(linha, coluna, direcao), NAVIO);
  }

  /** Once a ship is written, the same placement is no longer free. */
  lemma PosicionarDuasVezes(m: Matriz, linha: int, coluna: int, direcao: int)
    requires EhTabuleiro(m) && PosicaoLivre(m, linha, coluna, direcao)
    ensures CelulasEm(m, Alvos(linha, coluna, direcao))
    ensures var depois := Marcar(m, Alvos(linha, coluna, direcao), NAVIO);
      EhTabuleiro(depois) && !PosicaoLivre(depois, linha, coluna, direcao)
  {
  }

  /** Going down-left from column 1 the third cell is column -1: rejected, not wrapped. */
  lemma DiagonalDecrescenteColunaNegativa(m: Matriz, linha: int)
    requires EhTabuleiro(m)
    ensures !PosicaoLivre(m, linha, 1, 3)
  {
    assert Alvo(linha, 1, 3, 2).1 == -1;
  }

  /** verificarPosicao: 1 exactly when the placement is free, 0 otherwise,
      including for any direction outside 0..3. The board is only read. */
  method VerificarPosicao(t: array2<int>, linha: int, coluna: int, direcao: int) returns (r: int)
    requires t.Length0 == TAMANHO_TABULEIRO && t.Length1 == TAMANHO_TABULEIRO
    ensures r == 0 || r == 1
    ensures r == 1 <==> PosicaoLivre(Conteudo(t), linha, coluna, direcao)
    ensures !DirecaoValida(direcao) ==> r == 0
  {
    for i := 0 to TAMANHO_NAVIO
      invariant i > 0 ==> DirecaoValida(direcao)
      invariant forall k :: 0 <= k < i ==>
        NoTabuleiro(Alvo(linha, coluna, direcao, k).0, Alvo(linha, coluna, direcao, k).1) &&
        t[Alvo(linha, coluna, direcao, k).0, Alvo(linha, coluna, direcao, k).1] != NAVIO
    {
      var linhaAtual: int, colunaAtual: int;
      match direcao {
        case 0 =>
          linhaAtual := linha;
          colunaAtual := coluna + i;
        case 1 =>
          linhaAtual := linha + i;
          colunaAtual := coluna;
        case 2 =>
          linhaAtual := linha + i;
          colunaAtual := coluna + i;
        case 3 =>
          linhaAtual := linha + i;
          colunaAtual := coluna - i;
        case _ =>
          return 0;
      }
      assert (linhaAtual, colunaAtual) == Alvo(linha, coluna, direcao, i);
      if linhaAtual >= TAMANHO_TABULEIRO || linhaAtual < 0 || colunaAtual >= TAMANHO_TABULEIRO || colunaAtual < 0 {
        return 0;
      }
      if t[linhaAtual, colunaAtual] == NAVIO {
        return 0;
      }
    }
    return 1;
  }

  /** A board that differs from `antes` exactly by ships on the cells of a
      free placement is that placement written onto `antes`. */
  lemma PosicionarEquivale(antes: Matriz, depois: Matriz, linha: int, coluna: int, direcao: int)
    requires EhTabuleiro(antes) && EhTabuleiro(depois) && PosicaoLivre(antes, linha, coluna, direcao)
    requires forall l, c :: NoTabuleiro(l, c) ==>
      depois[l][c] == if (l, c) in Alvos(linha, coluna, direcao) then NAVIO else antes[l][c]
    ensures CelulasEm(antes, Alvos(linha, coluna, direcao))
    ensures depois == Marcar(antes, Alvos(linha, coluna, direcao), NAVIO)
  {
    var cs := Alvos(linha, coluna, direcao);
    forall l, c | NoTabuleiro(l, c) ensures Marcar(antes, cs, NAVIO)[l][c] == depois[l][c] {
      MarcarCelula(antes, cs, NAVIO, l, c);
    }
    MatrizIgual(depois, Marcar(antes, cs, NAVIO));
  }

  /** posicionarNavio: on a free placement writes NAVIO on its three cells and
      returns 1, every other cell unchanged; otherwise returns 0 and leaves the
      board untouched. `tipoNavio` plays no part. */
  method PosicionarNavio(t: array2<int>, linha: int, coluna: int, direcao: int, tipoNavio: int) returns (r: int)
    requires t.Length0 == TAMANHO_TABULEIRO && t.Length1 == TAMANHO_TABULEIRO
    modifies t
    ensures r == 0 || r == 1
    ensures r == 1 <==> PosicaoLivre(old(Conteudo(t)), linha, coluna, direcao)
    ensures r == 1 ==> forall l, c :: NoTabuleiro(l, c) ==>
      t[l, c] == if (l, c) in Alvos(linha, coluna, direcao) then NAVIO else old(t[l, c])
    ensures r == 1 ==> (CelulasEm(old(Conteudo(t)), Alvos(linha, coluna, direcao)) &&
      Conteudo(t) == Marcar(old(Conteudo(t)), Alvos(linha, coluna, direcao), NAVIO))
    ensures r == 0 ==> unchanged(t)
  {
    var valida := VerificarPosicao(t, linha, coluna, direcao);
    if valida != 0 {
      ghost var antes := Conteudo(t);
      ghost var cs := Alvos(linha, coluna, direcao);
      for i := 0 to TAMANHO_NAVIO
        invariant forall l, c :: NoTabuleiro(l, c) ==>
          t[l, c] == if (l, c) in cs[..i] then NAVIO else antes[l][c]
      {
        var linhaAtual: int, colunaAtual: int;
        if direcao == 0 {
          linhaAtual, colunaAtual := linha, coluna + i;
        } else if direcao == 1 {
          linhaAtual, colunaAtual := linha + i, coluna;
        } else if direcao == 2 {
          linhaAtual, colunaAtual := linha + i, coluna + i;
        } else {
          linhaAtual, colunaAtual := linha + i, coluna - i;
        }
        assert (linhaAtual, colunaAtual) == cs[i];
        t[linhaAtual, colunaAtual] := NAVIO;
        assert cs[..i + 1] == cs[..i] + [cs[i]];
      }
      assert cs[..TAMANHO_NAVIO] == cs;
      PosicionarEquivale(antes, Conteudo(t), linha, coluna, direcao);
      return 1;
    }
    return 0;
  }
}
