/** The analyser's scoped symbol table: a stack of scopes, each a list of
    symbols with the most recently inserted first. The stack is a sequence
    whose LAST element is the innermost scope. */
module TabelaSimbolos {
  import opened Resultado

  datatype Tipo = TipoInt | TipoCar

  datatype Categoria = Variavel | Funcao | Parametro

  /** A declared name. `funcaoRef` is the owning function of a parameter. */
  datatype Simbolo = Simbolo(
    nome: string,
    tipo: Tipo,
    categoria: Categoria,
    posicao: int,
    numParametros: int,
    funcaoRef: Option<Simbolo>)

  /** One scope: newest symbol first (the head of the source's linked list). */
  type Escopo = seq<Simbolo>

  /** The scope stack, outermost first. */
  type Tabela = seq<Escopo>

  /** Fixed capacity of the scope stack. */
  const MaxEscopos: nat := 64

  /** Pushes an empty scope; `None` when the stack is already full, where the
      source terminates the process. */
  function NovoEscopo(t: Tabela): (r: Option<Tabela>)
    ensures r.None? <==> |t| >= MaxEscopos
    ensures r.Some? ==> |r.value| == |t| + 1 && r.value[..|t|] == t && r.value[|t|] == []
  {
    if |t| >= MaxEscopos then None else Some(t + [[]])
  }

  /** Discards the innermost scope with all its symbols; no effect on an
      empty stack. */
  function RemoverEscopo(t: Tabela): (r: Tabela)
    ensures |t| == 0 ==> r == t
    ensures |t| > 0 ==> |r| == |t| - 1 && forall i :: 0 <= i < |r| ==> r[i] == t[i]
  {
    if |t| == 0 then t else t[..|t| - 1]
  }

  /** Inserts a symbol at the head of the innermost scope. Outer scopes are
      untouched. */
  function Cria(t: Tabela, s: Simbolo): (r: Tabela)
    requires |t| > 0
    ensures |r| == |t|
    ensures forall i :: 0 <= i < |t| - 1 ==> r[i] == t[i]
    ensures r[|t| - 1] == [s] + t[|t| - 1]
  {
    t[..|t| - 1] + [[s] + t[|t| - 1]]
  }

  /** The symbol a variable declaration records. */
  function SimboloVariavel(nome: string, tipo: Tipo, pos: int): Simbolo {
    Simbolo(nome, tipo, Variavel, pos, -1, None)
  }

  /** The symbol a function declaration records. */
  function SimboloFuncao(nome: string, tipo: Tipo, n: int): Simbolo {
    Simbolo(nome, tipo, Funcao, -1, n, None)
  }

  /** The symbol a parameter declaration records. */
  function SimboloParametro(nome: string, tipo: Tipo, pos: int, f: Simbolo): Simbolo {
    Simbolo(nome, tipo, Parametro, pos, -1, Some(f))
  }

  function InserirVariavel(t: Tabela, nome: string, tipo: Tipo, pos: int): (r: Tabela)
    requires |t| > 0
    ensures Buscar(r, nome) == Some(Simbolo(nome, tipo, Variavel, pos, -1, None))
  {
    var r := Cria(t, SimboloVariavel(nome, tipo, pos));
    BuscarAposCria(t, SimboloVariavel(nome, tipo, pos), nome);
    r
  }

  /** Inserts a function symbol and hands it back, as the source returns the
      new entry for its parameters to point to. */
  function InserirFuncao(t: Tabela, nome: string, tipo: Tipo, n: int): (r: (Tabela, Simbolo))
    requires |t| > 0
    ensures r.1 == Simbolo(nome, tipo, Funcao, -1, n, None)
    ensures Buscar(r.0, nome) == Some(r.1)
  {
    var s := SimboloFuncao(nome, tipo, n);
    BuscarAposCria(t, s, nome);
    (Cria(t, s), s)
  }

  function InserirParametro(t: Tabela, nome: string, tipo: Tipo, pos: int, f: Simbolo): (r: Tabela)
    requires |t| > 0
    ensures Buscar(r, nome) == Some(Simbolo(nome, tipo, Parametro, pos, -1, Some(f)))
  {
    var s := SimboloParametro(nome, tipo, pos, f);
    BuscarAposCria(t, s, nome);
    Cria(t, s)
  }

  /** `j` is the first position of `nome` in scope `e`. */
  predicate PrimeiroNoEscopo(e: Escopo, nome: string, j: int) {
    0 <= j < |e| && e[j].nome == nome && forall k :: 0 <= k < j ==> e[k].nome != nome
  }

  /** Newest-first search of one scope. */
  function BuscarEscopo(e: Escopo, nome: string): (r: Option<Simbolo>)
    ensures r.None? <==> forall j :: 0 <= j < |e| ==> e[j].nome != nome
    ensures r.Some? ==> exists j :: PrimeiroNoEscopo(e, nome, j) && r.value == e[j]
  {
    if e == [] then None
    else if e[0].nome == nome then
      assert PrimeiroNoEscopo(e, nome, 0);
      Some(e[0])
    else
      var r := BuscarEscopo(e[1..], nome);
      if r.Some? then
        var j :| PrimeiroNoEscopo(e[1..], nome, j) && r.value == e[1..][j];
        assert PrimeiroNoEscopo(e, nome, j + 1);
        r
      else
        assert forall j :: 0 < j < |e| ==> e[j] == e[1..][j - 1];
        r
  }

  /** `(i, j)` is where an innermost-first, newest-first search meets `nome`:
      no scope inside `i` has the name and `j` is its first place in `i`. */
  predicate PrimeiroNaTabela(t: Tabela, nome: string, i: int, j: int) {
    && 0 <= i < |t|
    && PrimeiroNoEscopo(t[i], nome, j)
    && forall a, b :: i < a < |t| && 0 <= b < |t[a]| ==> t[a][b].nome != nome
  }

  /** Lookup from the innermost scope outward: the source's shadowing rule. */
  function Buscar(t: Tabela, nome: string): (r: Option<Simbolo>)
    ensures r.None? <==> forall a, b :: 0 <= a < |t| && 0 <= b < |t[a]| ==> t[a][b].nome != nome
    ensures r.Some? ==> exists i, j :: PrimeiroNaTabela(t, nome, i, j) && r.value == t[i][j]
    decreases |t|
  {
    if |t| == 0 then None
    else
      var here := BuscarEscopo(t[|t| - 1], nome);
      if here.Some? then
        AchadoNoTopo(t, nome, here.value);
        here
      else
        var r := Buscar(t[..|t| - 1], nome);
        BuscaAbaixo(t, nome, r);
        r
  }

  /** A hit in the innermost scope is the first one. */
  lemma AchadoNoTopo(t: Tabela, nome: string, s: Simbolo)
    requires |t| > 0 && BuscarEscopo(t[|t| - 1], nome) == Some(s)
    ensures exists i, j :: PrimeiroNaTabela(t, nome, i, j) && s == t[i][j]
  {
    var top := |t| - 1;
    var j :| PrimeiroNoEscopo(t[top], nome, j) && s == t[top][j];
    assert PrimeiroNaTabela(t, nome, top, j);
  }

  /** Past an innermost scope without the name, the outer scopes decide. */
  lemma BuscaAbaixo(t: Tabela, nome: string, r: Option<Simbolo>)
    requires |t| > 0 && BuscarEscopo(t[|t| - 1], nome).None?
    requires var u := t[..|t| - 1];
             && (r.None? <==> forall a, b :: 0 <= a < |u| && 0 <= b < |u[a]| ==> u[a][b].nome != nome)
             && (r.Some? ==> exists i, j :: PrimeiroNaTabela(u, nome, i, j) && r.value == u[i][j])
    ensures r.None? <==> forall a, b :: 0 <= a < |t| && 0 <= b < |t[a]| ==> t[a][b].nome != nome
    ensures r.Some? ==> exists i, j :: PrimeiroNaTabela(t, nome, i, j) && r.value == t[i][j]
  {
    var u := t[..|t| - 1];
    assert forall a :: 0 <= a < |u| ==> u[a] == t[a];
    if r.Some? {
      var i, j :| PrimeiroNaTabela(u, nome, i, j) && r.value == u[i][j];
      assert PrimeiroNaTabela(t, nome, i, j);
    }
  }

  /** A symbol just inserted shadows every other symbol of its name; other
      names are found exactly as before. */
  lemma BuscarAposCria(t: Tabela, s: Simbolo, nome: string)
    requires |t| > 0
    ensures Buscar(Cria(t, s), nome) == if s.nome == nome then Some(s) else Buscar(t, nome)
  {
    var r := Cria(t, s);
    var top := |t| - 1;
    assert r[top] == [s] + t[top];
    assert r[..top] == t[..top];
    if s.nome != nome {
      assert BuscarEscopo(r[top], nome) == BuscarEscopo(t[top], nome) by {
        assert r[top][1..] == t[top];
      }
    }
  }

  /** An empty innermost scope is invisible to lookup. */
  lemma BuscarAposNovoEscopo(t: Tabela, nome: string)
    requires |t| < MaxEscopos
    ensures Buscar(NovoEscopo(t).value, nome) == Buscar(t, nome)
  {
    var r := NovoEscopo(t).value;
    assert r[..|t|] == t;
  }

  /** Inserts the given symbols into the innermost scope, first to last. */
  function CriaTodos(t: Tabela, ss: seq<Simbolo>): (r: Tabela)
    requires |t| > 0
    ensures |r| == |t|
    ensures r[..|t| - 1] == t[..|t| - 1]
    decreases |ss|
  {
    if ss == [] then t else CriaTodos(Cria(t, ss[0]), ss[1..])
  }

  /** Scope round trip: push, any inserts, pop gives back the same table,
      so every lookup answers as it did before the push. */
  lemma {:induction false} EscopoIdaEVolta(t: Tabela, ss: seq<Simbolo>)
    requires |t| < MaxEscopos
    ensures RemoverEscopo(CriaTodos(NovoEscopo(t).value, ss)) == t
    ensures forall nome :: Buscar(RemoverEscopo(CriaTodos(NovoEscopo(t).value, ss)), nome) == Buscar(t, nome)
  {
    var p := NovoEscopo(t).value;
    var q := CriaTodos(p, ss);
    assert q[..|t|] == p[..|t|] == t;
  }
}
