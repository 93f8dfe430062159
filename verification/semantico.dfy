/** The semantic analyser: one recursive walk over the tree that types
    expressions, enforces the declaration rules and keeps the scope stack
    balanced. Every fatal diagnostic of the source becomes a `Falha` value
    carrying the offending line. */
module Semantico {
  import opened Resultado
  import opened Ast
  import opened Formas
  import opened TabelaSimbolos

  datatype ErroKind =
    | IdNaoDeclarado          // identifier not declared
    | AtribuicaoIncompativel  // assignment between different types
    | TiposIncompativeis      // binary operator over different types
    | OperadorExigeInt        // arithmetic or logical operator over `car`
    | OperandosIncompativeis  // relational operator over different types
    | OperadorRequerInt       // unary operator over `car`
    | FuncaoNaoDeclarada      // call of a name that is not a function
    | NumeroParametros        // call with the wrong number of arguments
    | RetorneIncompativel     // `retorne` of the wrong type
    | VariavelSemNome         // local declaration without a name
    | JaDeclarado             // local whose name is already visible
    | FuncaoDuplicada         // function whose name is already visible
    | ParametroDuplicado      // parameter whose name is already visible
    | VariavelGlobalSemNome   // global declaration without a name
    | VariavelDuplicada       // global declared twice

  /** A fatal outcome: a diagnostic with its line, or the scope stack
      overflowing (the source stops without a message). */
  datatype Falha = Erro(kind: ErroKind, linha: int) | EscoposEsgotados

  /** The type named by a type node: `car` only for a `Car` node, `int`
      otherwise. */
  function TipoDoNo(n: Node): (t: Tipo)
    ensures t == TipoCar <==> n.kind == Car
  {
    if n.kind == Int then TipoInt
    else if n.kind == Car then TipoCar
    else TipoInt
  }

  // ---------------------------------------------------------------------
  // What the analyser dereferences: the children and texts it reads must
  // exist. These are the analyser's demands on the tree, nothing more.
  // ---------------------------------------------------------------------

  predicate AnExpr(e: Node)
    decreases e
  {
    if e.kind == Int || e.kind == Car then true
    else if e.kind == Id then e.text.Some?
    else if e.kind == Atrib then |e.children| >= 2 && AnExpr(e.children[0]) && AnExpr(e.children[1])
    else if e.kind == Op then
      && e.text.Some?
      && (Binario(e.text.value) ==> |e.children| >= 2 && AnExpr(e.children[0]) && AnExpr(e.children[1]))
      && (Unario(e.text.value) ==> |e.children| >= 1 && AnExpr(e.children[0]))
    else if e.kind == ChamadaFuncao then
      && e.text.Some?
      && (|e.children| > 0 ==>
            forall i :: 0 <= i < |e.children[0].children| ==> AnExpr(e.children[0].children[i]))
    else |e.children| > 0 ==> AnExpr(e.children[|e.children| - 1])
  }

  predicate AnLocais(l: Node) {
    forall i :: 0 <= i < |l.children| ==>
      l.children[i].kind == DeclVariavel && l.children[i].text.Some? ==> |l.children[i].children| >= 1
  }

  predicate AnCmd(c: Node)
    decreases c
  {
    if c.kind == Atrib then AnExpr(c)
    else if c.kind == Leitura || c.kind == Escrita || c.kind == Retorne then
      |c.children| >= 1 && AnExpr(c.children[0])
    else if c.kind == Se || c.kind == Enquanto then
      |c.children| >= 2 && AnExpr(c.children[0]) && AnCmd(c.children[1])
    else if c.kind == Senao then |c.children| >= 2 && AnCmd(c.children[0]) && AnCmd(c.children[1])
    else if c.kind == Bloco then |c.children| >= 2 && AnLocais(c.children[0]) && AnCmd(c.children[1])
    else if c.kind == ListaComando then forall i :: 0 <= i < |c.children| ==> AnCmd(c.children[i])
    else true
  }

  predicate AnBloco(b: Node) {
    |b.children| >= 2 && AnLocais(b.children[0]) && AnCmd(b.children[1])
  }

  predicate AnParam(p: Node) {
    |p.children| >= 2 && p.children[1].text.Some?
  }

  predicate AnFuncao(d: Node) {
    && d.text.Some?
    && |d.children| >= 2
    && |d.children[1].children| >= 2
    && (forall i :: 0 <= i < |d.children[1].children[0].children| ==> AnParam(d.children[1].children[0].children[i]))
    && AnBloco(d.children[1].children[1])
  }

  predicate AnGlobal(item: Node) {
    && (item.kind == DeclVariavel ==> |item.children| >= 1)
    && (item.kind == DeclFuncao ==> AnFuncao(item))
  }

  predicate AnPrograma(r: Node) {
    && |r.children| >= 2
    && (forall i :: 0 <= i < |r.children[0].children| ==> AnGlobal(r.children[0].children[i]))
    && |r.children[1].children| >= 1
    && AnBloco(r.children[1].children[0])
  }

  // ---------------------------------------------------------------------
  // Expressions
  // ---------------------------------------------------------------------

  /** Number of arguments of a call node: the children of its list, if any. */
  function NumArgs(e: Node): nat {
    if |e.children| > 0 then |e.children[0].children| else 0
  }

  /** Types an expression. Lookups are the only use of the table; it is
      never changed here. */
  function VerificaExpr(t: Tabela, e: Node): (r: Result<Tipo, Falha>)
    requires AnExpr(e)
    ensures r.Failure? ==> r.error.Erro?
    ensures e.kind == Int ==> r == Success(TipoInt)
    ensures e.kind == Car ==> r == Success(TipoCar)
    ensures e.kind == Op && r.Success? ==> r.value == TipoInt
    decreases e, 1, 0
  {
    if e.kind == Int then Success(TipoInt)
    else if e.kind == Car then Success(TipoCar)
    else if e.kind == Id then
      var s := Buscar(t, e.text.value);
      if s.None? then Failure(Erro(IdNaoDeclarado, e.linha)) else Success(s.value.tipo)
    else if e.kind == Atrib then
      var tvar :- VerificaExpr(t, e.children[0]);
      var texpr :- VerificaExpr(t, e.children[1]);
      if tvar != texpr then Failure(Erro(AtribuicaoIncompativel, e.linha)) else Success(tvar)
    else if e.kind == Op then VerificaOp(t, e)
    else if e.kind == ChamadaFuncao then VerificaChamada(t, e)
    else if |e.children| > 0 then VerificaExpr(t, e.children[|e.children| - 1])
    else Success(TipoInt)
  }

  /** An operator node: arithmetic and logical operators want two `int`
      operands, relational ones two operands of one type, unary ones an
      `int`; the result is always `int`. */
  function VerificaOp(t: Tabela, e: Node): (r: Result<Tipo, Falha>)
    requires AnExpr(e) && e.kind == Op
    ensures r.Failure? ==> r.error.Erro?
    ensures r.Success? ==> r.value == TipoInt
    decreases e, 0, 1
  {
    var op := e.text.value;
    if Aritmetico(op) then
      VerificaBinario(t, e, TipoInt)
    else if Relacional(op) then
      var esq :- VerificaExpr(t, e.children[0]);
      var dir :- VerificaExpr(t, e.children[1]);
      if esq != dir then Failure(Erro(OperandosIncompativeis, e.linha)) else Success(TipoInt)
    else if Logico(op) then
      var tb :- VerificaBinario(t, e, TipoInt);
      Success(TipoInt)
    else if Unario(op) then
      var tp :- VerificaExpr(t, e.children[0]);
      if tp != TipoInt then Failure(Erro(OperadorRequerInt, e.linha)) else Success(TipoInt)
    else
      Success(TipoInt)
  }

  /** A call: the name must resolve to a function and the argument count
      must match; the arguments are typed for their errors only. */
  function VerificaChamada(t: Tabela, e: Node): (r: Result<Tipo, Falha>)
    requires AnExpr(e) && e.kind == ChamadaFuncao
    ensures r.Failure? ==> r.error.Erro?
    decreases e, 0, 1
  {
    var f := Buscar(t, e.text.value);
    if f.None? || f.value.categoria != Categoria.Funcao then
      Failure(Erro(FuncaoNaoDeclarada, e.linha))
    else if NumArgs(e) != f.value.numParametros then
      Failure(Erro(NumeroParametros, e.linha))
    else
      var ok :- if |e.children| > 0 then VerificaArgs(t, e.children[0], 0) else Success(());
      Success(f.value.tipo)
  }

  /** Both operands must have the same type, and that type must be the
      expected one; the result is the left operand's type. */
  function VerificaBinario(t: Tabela, e: Node, esperado: Tipo): (r: Result<Tipo, Falha>)
    requires e.kind == Op && AnExpr(e) && e.text.Some? && Binario(e.text.value)
    ensures r.Failure? ==> r.error.Erro?
    ensures r.Success? ==> r.value == esperado
    decreases e, 0, 0
  {
    var esq :- VerificaExpr(t, e.children[0]);
    var dir :- VerificaExpr(t, e.children[1]);
    if esq != dir then Failure(Erro(TiposIncompativeis, e.linha))
    else if esperado != esq then Failure(Erro(OperadorExigeInt, e.linha))
    else Success(esq)
  }

  /** Types the arguments from position `i` on, for their errors only. */
  function VerificaArgs(t: Tabela, lista: Node, i: nat): (r: Result<(), Falha>)
    requires i <= |lista.children|
    requires forall k :: 0 <= k < |lista.children| ==> AnExpr(lista.children[k])
    ensures r.Failure? ==> r.error.Erro?
    decreases lista, 0, |lista.children| - i
  {
    if i == |lista.children| then Success(())
    else
      var tk :- VerificaExpr(t, lista.children[i]);
      VerificaArgs(t, lista, i + 1)
  }

  // ---------------------------------------------------------------------
  // Statements, blocks and declarations
  // ---------------------------------------------------------------------

  /** Checks a statement inside a function returning `ret`. The table is
      threaded through and comes back exactly as it went in. */
  function VerificaComando(t: Tabela, c: Node, ret: Tipo): (r: Result<Tabela, Falha>)
    requires AnCmd(c)
    ensures r.Success? ==> r.value == t
    decreases c, 2, 0
  {
    match c.kind
    case Atrib =>
      var tc :- VerificaExpr(t, c);
      Success(t)
    case Leitura =>
      var tc :- VerificaExpr(t, c.children[0]);
      Success(t)
    case Escrita =>
      var tc :- VerificaExpr(t, c.children[0]);
      Success(t)
    case Retorne =>
      var tc :- VerificaExpr(t, c.children[0]);
      if tc != ret then Failure(Erro(RetorneIncompativel, c.linha)) else Success(t)
    case Se =>
      var tc :- VerificaExpr(t, c.children[0]);
      VerificaComando(t, c.children[1], ret)
    case Senao =>
      var t1 :- VerificaComando(t, c.children[0], ret);
      VerificaComando(t1, c.children[1], ret)
    case Enquanto =>
      var tc :- VerificaExpr(t, c.children[0]);
      VerificaComando(t, c.children[1], ret)
    case Bloco =>
      PercorreBloco(t, c, ret)
    case ListaComando =>
      VerificaLista(t, c, 0, ret)
    case _ =>
      Success(t)
  }

  /** Checks the statements of a list from position `i` on, in order. */
  function VerificaLista(t: Tabela, c: Node, i: nat, ret: Tipo): (r: Result<Tabela, Falha>)
    requires i <= |c.children|
    requires forall k :: 0 <= k < |c.children| ==> AnCmd(c.children[k])
    ensures r.Success? ==> r.value == t
    decreases c, 0, |c.children| - i
  {
    if i == |c.children| then Success(t)
    else
      var t1 :- VerificaComando(t, c.children[i], ret);
      VerificaLista(t1, c, i + 1, ret)
  }

  /** A block: push a scope, declare its locals, check its statements, pop. */
  function PercorreBloco(t: Tabela, b: Node, ret: Tipo): (r: Result<Tabela, Falha>)
    requires AnBloco(b)
    ensures r.Success? ==> r.value == t
    ensures r == Failure(EscoposEsgotados) <== |t| >= MaxEscopos
    decreases b, 1, 0
  {
    var t1 :- NovoEscopoOuFalha(t);
    var t2 :- DeclaraVariaveis(t1, b.children[0], 0);
    var t3 :- VerificaComando(t2, b.children[1], ret);
    Success(RemoverEscopo(t3))
  }

  /** Pushes a scope, turning the source's fatal overflow into a `Falha`. */
  function NovoEscopoOuFalha(t: Tabela): (r: Result<Tabela, Falha>)
    ensures r.Failure? <==> |t| >= MaxEscopos
    ensures r.Failure? ==> r.error == EscoposEsgotados
    ensures r.Success? ==> |r.value| == |t| + 1 && r.value[..|t|] == t && r.value[|t|] == []
  {
    var p := NovoEscopo(t);
    if p.None? then Failure(EscoposEsgotados) else Success(p.value)
  }

  /** One local declaration: rejected when unnamed, or when the innermost
      visible symbol of that name is anything but a function. */
  function DeclaraLocal(t: Tabela, v: Node): (r: Result<Tabela, Falha>)
    requires |t| > 0
    requires v.kind == DeclVariavel && (v.text.Some? ==> |v.children| >= 1)
    ensures r.Failure? <==>
              v.text.None?
              || (Buscar(t, v.text.value).Some? && Buscar(t, v.text.value).value.categoria != Categoria.Funcao)
    ensures r.Failure? && v.text.None? ==> r.error == Erro(VariavelSemNome, v.linha)
    ensures r.Failure? && v.text.Some? ==> r.error == Erro(JaDeclarado, v.linha)
    ensures r.Success? ==>
              && |r.value| == |t|
              && r.value[..|t| - 1] == t[..|t| - 1]
              && Buscar(r.value, v.text.value) == Some(SimboloVariavel(v.text.value, TipoDoNo(v.children[0]), 0))
  {
    if v.text.None? then Failure(Erro(VariavelSemNome, v.linha))
    else
      var nome := v.text.value;
      var tp := TipoDoNo(v.children[0]);
      var s := Buscar(t, nome);
      if s.Some? && s.value.categoria != Categoria.Funcao then Failure(Erro(JaDeclarado, v.linha))
      else Success(InserirVariavel(t, nome, tp, 0))
  }

  /** The locals of a declaration list from position `i` on; entries that
      are not variable declarations are skipped. Only the innermost scope
      changes. */
  function DeclaraVariaveis(t: Tabela, l: Node, i: nat): (r: Result<Tabela, Falha>)
    requires |t| > 0 && i <= |l.children| && AnLocais(l)
    ensures r.Success? ==> |r.value| == |t| && r.value[..|t| - 1] == t[..|t| - 1]
    decreases |l.children| - i
  {
    if i == |l.children| then Success(t)
    else if l.children[i].kind != DeclVariavel then DeclaraVariaveis(t, l, i + 1)
    else
      var t1 :- DeclaraLocal(t, l.children[i]);
      DeclaraVariaveis(t1, l, i + 1)
  }

  /** One parameter: rejected when its name is visible at all. */
  function DeclaraParametro(t: Tabela, p: Node, i: int, f: Simbolo): (r: Result<Tabela, Falha>)
    requires |t| > 0 && AnParam(p)
    ensures r.Failure? <==> Buscar(t, p.children[1].text.value).Some?
    ensures r.Failure? ==> r.error == Erro(ParametroDuplicado, p.linha)
    ensures r.Success? ==>
              && |r.value| == |t|
              && r.value[..|t| - 1] == t[..|t| - 1]
              && Buscar(r.value, p.children[1].text.value)
                 == Some(SimboloParametro(p.children[1].text.value, TipoDoNo(p.children[0]), i, f))
  {
    var nome := p.children[1].text.value;
    if Buscar(t, nome).Some? then Failure(Erro(ParametroDuplicado, p.linha))
    else Success(InserirParametro(t, nome, TipoDoNo(p.children[0]), i, f))
  }

  /** The parameters of a list from position `i` on, left to right, with
      their ordinal and owning function. */
  function DeclaraParametros(t: Tabela, l: Node, i: nat, f: Simbolo): (r: Result<Tabela, Falha>)
    requires |t| > 0 && i <= |l.children|
    requires forall k :: 0 <= k < |l.children| ==> AnParam(l.children[k])
    ensures r.Success? ==> |r.value| == |t| && r.value[..|t| - 1] == t[..|t| - 1]
    decreases |l.children| - i
  {
    if i == |l.children| then Success(t)
    else
      var t1 :- DeclaraParametro(t, l.children[i], i, f);
      DeclaraParametros(t1, l, i + 1, f)
  }

  /** A function declaration `[type, Funcao[params, block]]`: rejected when
      its name is visible; otherwise its symbol enters the enclosing scope
      and its parameters and body are checked in a scope of their own. */
  function VerificaFuncao(t: Tabela, d: Node): (r: Result<Tabela, Falha>)
    requires |t| > 0 && AnFuncao(d)
    ensures Buscar(t, d.text.value).Some? ==> r == Failure(Erro(FuncaoDuplicada, d.linha))
    ensures r.Success? ==>
              r.value == InserirFuncao(t, d.text.value, TipoDoNo(d.children[0]), |d.children[1].children[0].children|).0
  {
    var nome := d.text.value;
    var retTipo := TipoDoNo(d.children[0]);
    var fun := d.children[1];
    if Buscar(t, nome).Some? then Failure(Erro(FuncaoDuplicada, d.linha))
    else
      var (t1, s) := InserirFuncao(t, nome, retTipo, |fun.children[0].children|);
      var t2 :- NovoEscopoOuFalha(t1);
      var t3 :- DeclaraParametros(t2, fun.children[0], 0, s);
      var t4 :- PercorreBloco(t3, fun.children[1], retTipo);
      assert RemoverEscopo(t4) == t1 by {
        assert t4[..|t1|] == t1;
      }
      Success(RemoverEscopo(t4))
  }

  /** One global variable: rejected when unnamed, or when any visible
      symbol has its name; otherwise it enters the global scope. */
  function DeclaraGlobal(t: Tabela, v: Node): (r: Result<Tabela, Falha>)
    requires |t| > 0
    requires v.kind == DeclVariavel && |v.children| >= 1
    ensures r.Failure? <==> v.text.None? || Buscar(t, v.text.value).Some?
    ensures r.Failure? && v.text.None? ==> r.error == Erro(VariavelGlobalSemNome, v.linha)
    ensures r.Failure? && v.text.Some? ==> r.error == Erro(VariavelDuplicada, v.linha)
    ensures r.Success? ==>
              && |r.value| == |t|
              && r.value[..|t| - 1] == t[..|t| - 1]
              && Buscar(r.value, v.text.value) == Some(SimboloVariavel(v.text.value, TipoDoNo(v.children[0]), 0))
  {
    if v.text.None? then Failure(Erro(VariavelGlobalSemNome, v.linha))
    else if Buscar(t, v.text.value).Some? then Failure(Erro(VariavelDuplicada, v.linha))
    else Success(InserirVariavel(t, v.text.value, TipoDoNo(v.children[0]), 0))
  }

  /** The name a top-level item declares: a global variable's or a
      function's; other items declare none. */
  function NomeGlobal(item: Node): Option<string> {
    if item.kind == DeclVariavel || item.kind == DeclFuncao then item.text else None
  }

  /** One top-level item: a global variable or a function; anything else
      is skipped. A declared name must not be visible before, and is
      visible after. */
  function DeclaraItem(t: Tabela, item: Node): (r: Result<Tabela, Falha>)
    requires |t| > 0 && AnGlobal(item)
    ensures r.Success? ==> |r.value| == |t| && r.value[..|t| - 1] == t[..|t| - 1]
    ensures r.Success? && item.kind == DeclVariavel ==> item.text.Some?
    ensures r.Success? && NomeGlobal(item).Some? ==>
              Buscar(t, NomeGlobal(item).value).None? && Buscar(r.value, NomeGlobal(item).value).Some?
  {
    if item.kind == DeclVariavel then DeclaraGlobal(t, item)
    else if item.kind == DeclFuncao then VerificaFuncao(t, item)
    else Success(t)
  }

  /** A top-level item never hides a name that was visible. */
  lemma ItemPreservaBusca(t: Tabela, item: Node, nome: string)
    requires |t| > 0 && AnGlobal(item) && DeclaraItem(t, item).Success?
    requires Buscar(t, nome).Some?
    ensures Buscar(DeclaraItem(t, item).value, nome).Some?
  {
    if item.kind == DeclVariavel {
      var s := SimboloVariavel(item.text.value, TipoDoNo(item.children[0]), 0);
      assert DeclaraItem(t, item).value == TabelaSimbolos.Cria(t, s);
      BuscarAposCria(t, s, nome);
    } else if item.kind == DeclFuncao {
      var s := SimboloFuncao(item.text.value, TipoDoNo(item.children[0]), |item.children[1].children[0].children|);
      assert DeclaraItem(t, item).value == TabelaSimbolos.Cria(t, s);
      BuscarAposCria(t, s, nome);
    }
  }

  /** One top-level item from position `i` on: a global variable or a
      function; anything else is skipped. Only the global scope changes. */
  function DeclaraGlobais(t: Tabela, l: Node, i: nat): (r: Result<Tabela, Falha>)
    requires |t| > 0 && i <= |l.children|
    requires forall k :: 0 <= k < |l.children| ==> AnGlobal(l.children[k])
    ensures r.Success? ==> |r.value| == |t| && r.value[..|t| - 1] == t[..|t| - 1]
    decreases |l.children| - i
  {
    if i == |l.children| then Success(t)
    else
      assert AnGlobal(l.children[i]);
      var t1 :- DeclaraItem(t, l.children[i]);
      DeclaraGlobais(t1, l, i + 1)
  }

  /** A top-level walk that passes names every global variable, declares
      only names not visible before it, and never hides a name that was
      visible. */
  lemma {:induction false} GlobaisVisiveis(t: Tabela, l: Node, i: nat, r: Tabela)
    requires |t| > 0 && i <= |l.children|
    requires forall k :: 0 <= k < |l.children| ==> AnGlobal(l.children[k])
    requires DeclaraGlobais(t, l, i) == Success(r)
    ensures forall k :: i <= k < |l.children| && l.children[k].kind == DeclVariavel ==> l.children[k].text.Some?
    ensures forall nome :: Buscar(t, nome).Some? ==> Buscar(r, nome).Some?
    ensures forall k :: i <= k < |l.children| && NomeGlobal(l.children[k]).Some? ==>
              Buscar(t, NomeGlobal(l.children[k]).value).None?
    decreases |l.children| - i
  {
    if i < |l.children| {
      var item := l.children[i];
      assert AnGlobal(item);
      var t1 := GlobalPasso(t, l, i, r);
      GlobaisVisiveis(t1, l, i + 1, r);
      forall nome | Buscar(t, nome).Some?
        ensures Buscar(t1, nome).Some?
      {
        ItemPreservaBusca(t, item, nome);
      }
      forall k | i < k < |l.children| && NomeGlobal(l.children[k]).Some?
        ensures Buscar(t, NomeGlobal(l.children[k]).value).None?
      {
        var nome := NomeGlobal(l.children[k]).value;
        if Buscar(t, nome).Some? {
          ItemPreservaBusca(t, item, nome);
          assert false;
        }
      }
    }
  }

  /** One step of the top-level walk: the item at `i` is declared, and the
      walk goes on from the table it leaves. */
  lemma GlobalPasso(t: Tabela, l: Node, i: nat, r: Tabela) returns (t1: Tabela)
    requires |t| > 0 && i < |l.children|
    requires forall k :: 0 <= k < |l.children| ==> AnGlobal(l.children[k])
    requires DeclaraGlobais(t, l, i) == Success(r)
    ensures |t1| > 0 && DeclaraItem(t, l.children[i]) == Success(t1)
    ensures DeclaraGlobais(t1, l, i + 1) == Success(r)
  {
    assert AnGlobal(l.children[i]);
    t1 := DeclaraItem(t, l.children[i]).value;
  }

  /** A top-level walk that passes never declares one name twice. */
  lemma {:induction false} GlobaisDistintos(t: Tabela, l: Node, i: nat, r: Tabela)
    requires |t| > 0 && i <= |l.children|
    requires forall k :: 0 <= k < |l.children| ==> AnGlobal(l.children[k])
    requires DeclaraGlobais(t, l, i) == Success(r)
    ensures forall k1, k2 :: i <= k1 < k2 < |l.children| && NomeGlobal(l.children[k1]).Some? ==>
              NomeGlobal(l.children[k1]) != NomeGlobal(l.children[k2])
    decreases |l.children| - i
  {
    if i < |l.children| {
      var item := l.children[i];
      assert AnGlobal(item);
      var t1 := GlobalPasso(t, l, i, r);
      GlobaisDistintos(t1, l, i + 1, r);
      GlobaisVisiveis(t1, l, i + 1, r);
    }
  }

  /** A program that passes declares no top-level name twice. */
  lemma ProgramaGlobaisDistintos(t: Tabela, raiz: Node)
    requires AnPrograma(raiz) && VerificaPrograma(t, raiz).Success?
    ensures forall k :: 0 <= k < |raiz.children[0].children| && raiz.children[0].children[k].kind == DeclVariavel ==>
              raiz.children[0].children[k].text.Some?
    ensures forall k1, k2 :: 0 <= k1 < k2 < |raiz.children[0].children| && NomeGlobal(raiz.children[0].children[k1]).Some? ==>
              NomeGlobal(raiz.children[0].children[k1]) != NomeGlobal(raiz.children[0].children[k2])
  {
    var t1 := NovoEscopoOuFalha(t).value;
    var t2 := DeclaraGlobais(t1, raiz.children[0], 0).value;
    GlobaisVisiveis(t1, raiz.children[0], 0, t2);
    GlobaisDistintos(t1, raiz.children[0], 0, t2);
  }

  /** The whole program: global scope, top-level items, then the entry
      block `programa` (checked as returning `int`), then pop. */
  function VerificaPrograma(t: Tabela, raiz: Node): (r: Result<Tabela, Falha>)
    requires AnPrograma(raiz)
    ensures r.Success? ==> r.value == t
    ensures r == Failure(EscoposEsgotados) <== |t| >= MaxEscopos
  {
    var t1 :- NovoEscopoOuFalha(t);
    var t2 :- DeclaraGlobais(t1, raiz.children[0], 0);
    var t3 :- PercorreBloco(t2, raiz.children[1].children[0], TipoInt);
    assert RemoverEscopo(t3) == t by {
      assert t3[..|t|] == t;
    }
    Success(RemoverEscopo(t3))
  }

  /** The analyser's entry point, starting from an empty table. */
  function AnaliseSemantica(raiz: Node): (r: Result<(), Falha>)
    requires AnPrograma(raiz)
    ensures r.Success? <==> VerificaPrograma([], raiz).Success?
    ensures r.Failure? ==> r.error == VerificaPrograma([], raiz).error
    ensures r.Success? ==>
              forall k1, k2 :: 0 <= k1 < k2 < |raiz.children[0].children| && NomeGlobal(raiz.children[0].children[k1]).Some? ==>
                NomeGlobal(raiz.children[0].children[k1]) != NomeGlobal(raiz.children[0].children[k2])
  {
    var t :- VerificaPrograma([], raiz);
    ProgramaGlobaisDistintos([], raiz);
    Success(())
  }
}
