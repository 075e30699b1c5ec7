/** The 10×10 integer board that both programs share.

    In the programs the board is an `int[10][10]` filled in place; here it is an
    `array2<int>`, and `Conteudo` gives the value it holds as a sequence of rows
    (`Matriz`), so that lemmas can speak about boards before and after an
    operation. Cell codes are the programs' own integers. */
module Tabuleiro {

  const TAMANHO_TABULEIRO: int := 10
  const AGUA: int := 0
  const NAVIO: int := 3

  /** A board or a pattern as a value: a sequence of rows. */
  type Matriz = seq<seq<int>>

  /** `m` has `linhas` rows of `colunas` cells each. */
  predicate Retangular(m: Matriz, linhas: int, colunas: int) {
    |m| == linhas && forall l :: 0 <= l < |m| ==> |m[l]| == colunas
  }

  predicate EhTabuleiro(m: Matriz) {
    Retangular(m, TAMANHO_TABULEIRO, TAMANHO_TABULEIRO)
  }

  predicate NoTabuleiro(linha: int, coluna: int) {
    0 <= linha < TAMANHO_TABULEIRO && 0 <= coluna < TAMANHO_TABULEIRO
  }

  /** The value an array holds, row by row. */
  function Conteudo(a: array2<int>): (m: Matriz)
    reads a
    ensures Retangular(m, a.Length0, a.Length1)
    ensures forall l, c :: 0 <= l < a.Length0 && 0 <= c < a.Length1 ==> m[l][c] == a[l, c]
  {
    seq(a.Length0, l requires 0 <= l < a.Length0 reads a =>
      seq(a.Length1, c requires 0 <= c < a.Length1 reads a => a[l, c]))
  }

  /** Two matrices of the same shape that agree cell by cell are equal. */
  lemma MatrizIgual(a: Matriz, b: Matriz)
    requires |a| == |b|
    requires forall l :: 0 <= l < |a| ==> |a[l]| == |b[l]|
    requires forall l, c :: 0 <= l < |a| && 0 <= c < |a[l]| ==> a[l][c] == b[l][c]
    ensures a == b
  {
    assert forall l :: 0 <= l < |a| ==> a[l] == b[l];
  }

  /** The all-water board. */
  function Agua(): (m: Matriz)
    ensures EhTabuleiro(m)
  {
    seq(TAMANHO_TABULEIRO, _ => seq(TAMANHO_TABULEIRO, _ => AGUA))
  }

  /** `m` with the one cell (linha, coluna) set to `v`. */
  function Atualizar(m: Matriz, linha: int, coluna: int, v: int): (r: Matriz)
    requires 0 <= linha < |m| && 0 <= coluna < |m[linha]|
    ensures |r| == |m| && forall l :: 0 <= l < |m| ==> |r[l]| == |m[l]|
    ensures forall l, c :: 0 <= l < |m| && 0 <= c < |m[l]| ==>
      r[l][c] == if l == linha && c == coluna then v else m[l][c]
  {
    m[linha := m[linha][coluna := v]]
  }

  /** Every cell of `cs` lies inside `m`. */
  predicate CelulasEm(m: Matriz, cs: seq<(int, int)>) {
    forall k :: 0 <= k < |cs| ==> 0 <= cs[k].0 < |m| && 0 <= cs[k].1 < |m[cs[k].0]|
  }

  predicate Distintas(cs: seq<(int, int)>) {
    forall a, b :: 0 <= a < b < |cs| ==> cs[a] != cs[b]
  }

  /** `m` with the cells of `cs` set to `v`, written in the order of `cs`. */
  function Marcar(m: Matriz, cs: seq<(int, int)>, v: int): (r: Matriz)
    requires CelulasEm(m, cs)
    ensures |r| == |m| && forall l :: 0 <= l < |m| ==> |r[l]| == |m[l]|
    decreases |cs|
  {
    if cs == [] then m
    else
      var ultima := cs[|cs| - 1];
      Atualizar(Marcar(m, cs[..|cs| - 1], v), ultima.0, ultima.1, v)
  }

  /** Marking changes exactly the listed cells, to `v`, and no other. */
  lemma {:induction false} MarcarCelula(m: Matriz, cs: seq<(int, int)>, v: int, l: int, c: int)
    requires CelulasEm(m, cs)
    requires 0 <= l < |m| && 0 <= c < |m[l]|
    ensures Marcar(m, cs, v)[l][c] == if (l, c) in cs then v else m[l][c]
    decreases |cs|
  {
    if cs != [] {
      var inicio := cs[..|cs| - 1];
      MarcarCelula(m, inicio, v, l, c);
      assert cs == inicio + [cs[|cs| - 1]];
    }
  }

  /** Number of cells of a row that hold `v`. */
  function ContarNaLinha(s: seq<int>, v: int): (n: nat)
    ensures n <= |s|
  {
    if s == [] then 0 else (if s[0] == v then 1 else 0) + ContarNaLinha(s[1..], v)
  }

  /** Number of cells of a matrix that hold `v`. */
  function Contar(m: Matriz, v: int): nat {
    if m == [] then 0 else ContarNaLinha(m[0], v) + Contar(m[1..], v)
  }

  lemma {:induction false} ContarNaLinhaAtualizar(s: seq<int>, c: int, w: int, v: int)
    requires 0 <= c < |s|
    ensures ContarNaLinha(s[c := w], v)
      == ContarNaLinha(s, v) - (if s[c] == v then 1 else 0) + (if w == v then 1 else 0)
  {
    if c == 0 {
      assert s[c := w][1..] == s[1..];
    } else {
      assert s[c := w][1..] == s[1..][c - 1 := w];
      ContarNaLinhaAtualizar(s[1..], c - 1, w, v);
    }
  }

  lemma {:induction false} ContarTrocarLinha(m: Matriz, l: int, s: seq<int>, v: int)
    requires 0 <= l < |m|
    ensures Contar(m[l := s], v) == Contar(m, v) - ContarNaLinha(m[l], v) + ContarNaLinha(s, v)
  {
    if l == 0 {
      assert m[l := s][1..] == m[1..];
    } else {
      assert m[l := s][1..] == m[1..][l - 1 := s];
      ContarTrocarLinha(m[1..], l - 1, s, v);
    }
  }

  /** Setting to `v` one cell that did not hold `v` adds exactly one `v`. */
  lemma ContarAtualizar(m: Matriz, linha: int, coluna: int, v: int)
    requires 0 <= linha < |m| && 0 <= coluna < |m[linha]|
    requires m[linha][coluna] != v
    ensures Contar(Atualizar(m, linha, coluna, v), v) == Contar(m, v) + 1
  {
    ContarNaLinhaAtualizar(m[linha], coluna, v, v);
    ContarTrocarLinha(m, linha, m[linha][coluna := v], v);
  }

  /** Marking distinct cells none of which held `v` adds exactly one `v` per cell. */
  lemma {:induction false} MarcarContagem(m: Matriz, cs: seq<(int, int)>, v: int)
    requires CelulasEm(m, cs) && Distintas(cs)
    requires forall k :: 0 <= k < |cs| ==> m[cs[k].0][cs[k].1] != v
    ensures Contar(Marcar(m, cs, v), v) == Contar(m, v) + |cs|
    decreases |cs|
  {
    if cs != [] {
      var inicio := cs[..|cs| - 1];
      var ultima := cs[|cs| - 1];
      MarcarContagem(m, inicio, v);
      MarcarCelula(m, inicio, v, ultima.0, ultima.1);
      assert ultima !in inicio by {
        forall k | 0 <= k < |inicio| ensures inicio[k] != ultima {
          assert inicio[k] == cs[k];
        }
      }
      ContarAtualizar(Marcar(m, inicio, v), ultima.0, ultima.1, v);
    }
  }

  /** A matrix in which no cell holds `v` counts no `v`. */
  lemma {:induction false} ContarAusente(m: Matriz, v: int)
    requires forall l, c :: 0 <= l < |m| && 0 <= c < |m[l]| ==> m[l][c] != v
    ensures Contar(m, v) == 0
  {
    if m != [] {
      ContarNaLinhaAusente(m[0], v);
      assert forall l, c :: 0 <= l < |m[1..]| && 0 <= c < |m[1..][l]| ==> m[1..][l][c] == m[l + 1][c];
      ContarAusente(m[1..], v);
    }
  }

  lemma {:induction false} ContarNaLinhaAusente(s: seq<int>, v: int)
    requires forall c :: 0 <= c < |s| ==> s[c] != v
    ensures ContarNaLinha(s, v) == 0
  {
    if s != [] {
      assert forall c :: 0 <= c < |s[1..]| ==> s[1..][c] == s[c + 1];
      ContarNaLinhaAusente(s[1..], v);
    }
  }

  /** A freshly reset board holds no ship. */
  lemma AguaSemNavios()
    ensures Contar(Agua(), NAVIO) == 0
  {
    ContarAusente(Agua(), NAVIO);
  }

  /** inicializarTabuleiro: every cell becomes water, whatever it held. */
  method InicializarTabuleiro(t: array2<int>)
    requires t.Length0 == TAMANHO_TABULEIRO && t.Length1 == TAMANHO_TABULEIRO
    modifies t
    ensures forall l, c :: NoTabuleiro(l, c) ==> t[l, c] == AGUA
    ensures Conteudo(t) == Agua()
  {
    for i := 0 to TAMANHO_TABULEIRO
      invariant forall l, c :: 0 <= l < i && 0 <= c < TAMANHO_TABULEIRO ==> t[l, c] == AGUA
    {
      for j := 0 to TAMANHO_TABULEIRO
        invariant forall l, c :: 0 <= l < i && 0 <= c < TAMANHO_TABULEIRO ==> t[l, c] == AGUA
        invariant forall c :: 0 <= c < j ==> t[i, c] == AGUA
      {
        t[i, j] := AGUA;
      }
    }
    MatrizIgual(Conteudo(t), Agua());
  }
}
