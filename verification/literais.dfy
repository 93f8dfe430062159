/** The string-literal pool: collected in a first pass over the tree, each
    distinct text labelled `str<n>` from an increasing counter, and kept as a
    list whose head is the most recently added literal. */
module Literais {
  import opened Resultado
  import opened Ast
  import opened Rotulos
  import opened Mips

  /** A pooled literal and the number of its `str<n>` label. */
  datatype Entrada = Entrada(valor: string, id: nat)

  /** The pool: entries newest first, and the label counter. */
  datatype Pool = Pool(entradas: seq<Entrada>, contador: nat)

  const PoolVazio: Pool := Pool([], 0)

  /** The pool as the collection pass builds it: one entry per label number
      handed out, numbers descending from the head, texts distinct. */
  ghost predicate PoolOk(p: Pool) {
    && |p.entradas| == p.contador
    && (forall i :: 0 <= i < |p.entradas| ==> p.entradas[i].id == p.contador - 1 - i)
    && (forall i, j :: 0 <= i < j < |p.entradas| ==> p.entradas[i].valor != p.entradas[j].valor)
  }

  /** `i` is the first entry holding `v`. */
  predicate PrimeiraEntrada(p: Pool, v: string, i: int) {
    0 <= i < |p.entradas| && p.entradas[i].valor == v && forall k :: 0 <= k < i ==> p.entradas[k].valor != v
  }

  /** The label of a pooled text, scanning from the head; `None` when absent. */
  function Obter(p: Pool, v: string): (r: Option<Rotulo>)
    ensures r.None? <==> forall i :: 0 <= i < |p.entradas| ==> p.entradas[i].valor != v
    ensures r.Some? ==> exists i :: PrimeiraEntrada(p, v, i) && r.value == RotStr(p.entradas[i].id)
  {
    ObterDesde(p, v, 0)
  }

  function ObterDesde(p: Pool, v: string, k: nat): (r: Option<Rotulo>)
    requires k <= |p.entradas|
    requires forall i :: 0 <= i < k ==> p.entradas[i].valor != v
    ensures r.None? <==> forall i :: 0 <= i < |p.entradas| ==> p.entradas[i].valor != v
    ensures r.Some? ==> exists i :: PrimeiraEntrada(p, v, i) && r.value == RotStr(p.entradas[i].id)
    decreases |p.entradas| - k
  {
    if k == |p.entradas| then None
    else if p.entradas[k].valor == v then
      assert PrimeiraEntrada(p, v, k);
      Some(RotStr(p.entradas[k].id))
    else ObterDesde(p, v, k + 1)
  }

  /** Adds a text unless already pooled; a new text goes at the head with
      the next label number. */
  function Adiciona(p: Pool, v: string): (r: Pool)
    ensures Obter(p, v).Some? ==> r == p
    ensures Obter(p, v).None? ==> r.contador == p.contador + 1 && r.entradas == [Entrada(v, p.contador)] + p.entradas
  {
    if Obter(p, v).Some? then p
    else Pool([Entrada(v, p.contador)] + p.entradas, p.contador + 1)
  }

  /** Adding keeps the pool well formed. */
  lemma AdicionaPreserva(p: Pool, v: string)
    requires PoolOk(p)
    ensures PoolOk(Adiciona(p, v))
  {
  }

  /** Adding the same text twice is adding it once. */
  lemma AdicionaIdempotente(p: Pool, v: string)
    ensures Adiciona(Adiciona(p, v), v) == Adiciona(p, v)
  {
    if Obter(p, v).None? {
      var q := Adiciona(p, v);
      assert q.entradas[0].valor == v;
    }
  }

  /** After adding, the added text has a label, and every other text keeps
      the label it had (or its absence). */
  lemma ObterAposAdiciona(p: Pool, v: string, w: string)
    ensures Obter(Adiciona(p, v), w) ==
              if w == v && Obter(p, v).None? then Some(RotStr(p.contador)) else Obter(p, w)
  {
    if Obter(p, v).None? {
      var q := Adiciona(p, v);
      if w == v {
        assert PrimeiraEntrada(q, w, 0);
      } else {
        assert forall i :: 0 < i < |q.entradas| ==> q.entradas[i] == p.entradas[i - 1];
        if Obter(p, w).Some? {
          var i :| PrimeiraEntrada(p, w, i) && Obter(p, w).value == RotStr(p.entradas[i].id);
          assert PrimeiraEntrada(q, w, i + 1);
          var j :| PrimeiraEntrada(q, w, j) && Obter(q, w).value == RotStr(q.entradas[j].id);
          PrimeiraUnica(q, w, j, i + 1);
        }
      }
    }
  }

  lemma PrimeiraUnica(p: Pool, v: string, i: int, j: int)
    requires PrimeiraEntrada(p, v, i) && PrimeiraEntrada(p, v, j)
    ensures i == j
  {
  }

  /** In a well-formed pool, distinct texts never share a label. */
  lemma RotulosDistintos(p: Pool, v: string, w: string)
    requires PoolOk(p)
    requires Obter(p, v).Some? && Obter(p, v) == Obter(p, w)
    ensures v == w
  {
    var i :| PrimeiraEntrada(p, v, i) && Obter(p, v).value == RotStr(p.entradas[i].id);
    var j :| PrimeiraEntrada(p, w, j) && Obter(p, w).value == RotStr(p.entradas[j].id);
  }

  /** Two new texts added in turn: the later one heads the pool. */
  lemma MaisNovoPrimeiro(p: Pool, a: string, b: string)
    requires a != b && Obter(p, a).None? && Obter(p, b).None?
    ensures Adiciona(Adiciona(p, a), b).entradas[..2] == [Entrada(b, p.contador + 1), Entrada(a, p.contador)]
  {
    ObterAposAdiciona(p, a, b);
  }

  // ---------------------------------------------------------------------
  // The collection pass
  // ---------------------------------------------------------------------

  /** Every string-literal node in the tree carries its text. */
  predicate StrsComTexto(n: Node)
    decreases n
  {
    && (n.kind == Str ==> n.text.Some?)
    && forall i :: 0 <= i < |n.children| ==> StrsComTexto(n.children[i])
  }

  /** Pre-order walk adding every string literal's text to the pool. */
  function Coleta(p: Pool, n: Node): (r: Pool)
    requires StrsComTexto(n)
    ensures PoolOk(p) ==> PoolOk(r)
    ensures forall v :: Obter(p, v).Some? ==> Obter(r, v) == Obter(p, v)
    decreases n, 1, 0
  {
    if n.kind == Str then
      AdicionaPreservaCondicional(p, n.text.value);
      ColetaFilhos(Adiciona(p, n.text.value), n, 0)
    else
      ColetaFilhos(p, n, 0)
  }

  lemma AdicionaPreservaCondicional(p: Pool, v: string)
    ensures PoolOk(p) ==> PoolOk(Adiciona(p, v))
    ensures forall w :: Obter(p, w).Some? ==> Obter(Adiciona(p, v), w) == Obter(p, w)
  {
    if PoolOk(p) {
      AdicionaPreserva(p, v);
    }
    forall w | Obter(p, w).Some?
      ensures Obter(Adiciona(p, v), w) == Obter(p, w)
    {
      ObterAposAdiciona(p, v, w);
    }
  }

  function ColetaFilhos(p: Pool, n: Node, i: nat): (r: Pool)
    requires i <= |n.children|
    requires forall k :: 0 <= k < |n.children| ==> StrsComTexto(n.children[k])
    ensures PoolOk(p) ==> PoolOk(r)
    ensures forall v :: Obter(p, v).Some? ==> Obter(r, v) == Obter(p, v)
    decreases n, 0, |n.children| - i
  {
    if i == |n.children| then p
    else ColetaFilhos(Coleta(p, n.children[i]), n, i + 1)
  }

  /** After the collection pass every string literal of the tree has a
      label, which the generator's lookup will find. */
  lemma {:induction false} ColetaEncontra(p: Pool, n: Node, m: Node)
    requires StrsComTexto(n) && Contem(n, m) && m.kind == Str
    ensures m.text.Some? && Obter(Coleta(p, n), m.text.value).Some?
    decreases n, 1, 0
  {
    var p1 := if n.kind == Str then Adiciona(p, n.text.value) else p;
    if n == m {
      ObterAposAdiciona(p, n.text.value, n.text.value);
      assert Obter(p1, m.text.value).Some?;
    } else {
      var i :| 0 <= i < |n.children| && Contem(n.children[i], m);
      ColetaFilhosEncontra(p1, n, 0, i, m);
    }
  }

  lemma {:induction false} ColetaFilhosEncontra(p: Pool, n: Node, j: nat, i: nat, m: Node)
    requires j <= i < |n.children|
    requires forall k :: 0 <= k < |n.children| ==> StrsComTexto(n.children[k])
    requires Contem(n.children[i], m) && m.kind == Str
    ensures m.text.Some? && Obter(ColetaFilhos(p, n, j), m.text.value).Some?
    decreases n, 0, i - j
  {
    if j == i {
      ColetaEncontra(p, n.children[i], m);
    } else {
      ColetaFilhosEncontra(Coleta(p, n.children[j]), n, j + 1, i, m);
    }
  }

  // ---------------------------------------------------------------------
  // The data section
  // ---------------------------------------------------------------------

  /** One `.asciiz` line per pooled literal, in pool order. */
  function DadosStrings(es: seq<Entrada>): (code: seq<Instr>)
    ensures |code| == |es|
    ensures forall i :: 0 <= i < |es| ==> code[i] == Asciiz(RotStr(es[i].id), es[i].valor)
  {
    if es == [] then [] else [Asciiz(RotStr(es[0].id), es[0].valor)] + DadosStrings(es[1..])
  }

  /** The global variables named in a declaration list have text. */
  predicate GlobaisNomeados(lista: Node) {
    forall i :: 0 <= i < |lista.children| && lista.children[i].kind == DeclVariavel ==> lista.children[i].text.Some?
  }

  /** Names of the global variables of a declaration list, in order. */
  function NomesGlobais(lista: Node, i: nat): seq<string>
    requires i <= |lista.children| && GlobaisNomeados(lista)
    decreases |lista.children| - i
  {
    if i == |lista.children| then []
    else if lista.children[i].kind == DeclVariavel then [lista.children[i].text.value] + NomesGlobais(lista, i + 1)
    else NomesGlobais(lista, i + 1)
  }

  /** One zero-initialised `.word` per global variable, in declaration
      order; functions in the list are skipped. */
  function DadosGlobais(lista: Node, i: nat): (code: seq<Instr>)
    requires i <= |lista.children| && GlobaisNomeados(lista)
    ensures |code| == |NomesGlobais(lista, i)|
    ensures forall k :: 0 <= k < |code| ==> code[k] == Word(RotVar(NomesGlobais(lista, i)[k]))
    decreases |lista.children| - i
  {
    if i == |lista.children| then []
    else if lista.children[i].kind == DeclVariavel then
      [Word(RotVar(lista.children[i].text.value))] + DadosGlobais(lista, i + 1)
    else DadosGlobais(lista, i + 1)
  }

  /** Text of the newline string as the source writes it: the quotes
      enclose a real line break. */
  const TextoNl: string := "\"\n\""

  /** The `.data` section: the newline string, the pooled literals as the
      pool lists them, then the globals. */
  function SecaoDados(p: Pool, raiz: Node): (code: seq<Instr>)
    requires |raiz.children| > 0 ==> GlobaisNomeados(raiz.children[0])
    ensures |code| >= 2 && code[..2] == [SecaoData, Asciiz(RotNl, TextoNl)]
    ensures |raiz.children| == 0 ==> |code| == 2 + |p.entradas|
  {
    [SecaoData, Asciiz(RotNl, TextoNl)]
      + DadosStrings(p.entradas)
      + (if |raiz.children| > 0 then DadosGlobais(raiz.children[0], 0) else [])
  }

  /** The data section lists literals newest first: in a well-formed pool
      the `k`-th literal line carries label `str<c-1-k>`, so label numbers
      strictly decrease down the section. */
  lemma DadosNovosPrimeiro(p: Pool, raiz: Node)
    requires PoolOk(p)
    requires |raiz.children| > 0 ==> GlobaisNomeados(raiz.children[0])
    ensures forall k :: 0 <= k < |p.entradas| ==>
              SecaoDados(p, raiz)[2 + k] == Asciiz(RotStr(p.contador - 1 - k), p.entradas[k].valor)
    ensures |raiz.children| > 0 ==>
              SecaoDados(p, raiz)[2 + |p.entradas|..] == DadosGlobais(raiz.children[0], 0)
  {
    var d := SecaoDados(p, raiz);
    var cab := [SecaoData, Asciiz(RotNl, TextoNl)];
    var s := DadosStrings(p.entradas);
    var gl := if |raiz.children| > 0 then DadosGlobais(raiz.children[0], 0) else [];
    assert d == (cab + s) + gl;
    forall k | 0 <= k < |p.entradas|
      ensures d[2 + k] == Asciiz(RotStr(p.contador - 1 - k), p.entradas[k].valor)
    {
      assert d[2 + k] == (cab + s)[2 + k] == s[k];
    }
    assert d[2 + |p.entradas|..] == gl;
  }
}
