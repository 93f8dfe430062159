/** Properties of the semantic analyser: the typing rules per operator,
    where an undeclared-identifier diagnostic points, independence from
    anything but lookup results, and the source's declaration quirks. */
module SemanticoProps {
  import opened Resultado
  import opened Ast
  import opened Formas
  import opened TabelaSimbolos
  import opened Semantico

  // ---------------------------------------------------------------------
  // Typing rules, one operator group at a time
  // ---------------------------------------------------------------------

  /** `+ - * /` and `e`/`ou`: accepted exactly when both operands type as
      `int`; the result is `int`. Different operand types are reported as
      incompatible, equal `car` operands as needing `int`. */
  lemma OperadorExigeIntIff(t: Tabela, e: Node)
    requires e.kind == Op && AnExpr(e) && e.text.Some?
    requires Aritmetico(e.text.value) || Logico(e.text.value)
    ensures VerificaExpr(t, e).Success? <==>
              VerificaExpr(t, e.children[0]) == Success(TipoInt) && VerificaExpr(t, e.children[1]) == Success(TipoInt)
    ensures VerificaExpr(t, e).Success? ==> VerificaExpr(t, e).value == TipoInt
    ensures VerificaExpr(t, e.children[0]) == Success(TipoCar) && VerificaExpr(t, e.children[1]) == Success(TipoCar)
            ==> VerificaExpr(t, e) == Failure(Erro(OperadorExigeInt, e.linha))
    ensures VerificaExpr(t, e.children[0]).Success? && VerificaExpr(t, e.children[1]).Success?
            && VerificaExpr(t, e.children[0]).value != VerificaExpr(t, e.children[1]).value
            ==> VerificaExpr(t, e) == Failure(Erro(TiposIncompativeis, e.linha))
  {
    var b := VerificaBinario(t, e, TipoInt);
    assert VerificaExpr(t, e) == VerificaOp(t, e);
    assert VerificaOp(t, e).Success? <==> b.Success?;
    assert b.Failure? ==> VerificaOp(t, e) == b;
  }

  /** Relational operators: accepted exactly when both operands type alike,
      `int` or `car`; the result is always `int`. */
  lemma RelacionalMesmoTipoIff(t: Tabela, e: Node)
    requires e.kind == Op && AnExpr(e) && e.text.Some? && Relacional(e.text.value)
    ensures VerificaExpr(t, e).Success? <==>
              && VerificaExpr(t, e.children[0]).Success?
              && VerificaExpr(t, e.children[1]).Success?
              && VerificaExpr(t, e.children[0]).value == VerificaExpr(t, e.children[1]).value
    ensures VerificaExpr(t, e).Success? ==> VerificaExpr(t, e).value == TipoInt
  {
  }

  /** `uminus` and `!`: accepted exactly when the operand types as `int`. */
  lemma UnarioExigeIntIff(t: Tabela, e: Node)
    requires e.kind == Op && AnExpr(e) && e.text.Some? && Unario(e.text.value)
    ensures VerificaExpr(t, e).Success? <==> VerificaExpr(t, e.children[0]) == Success(TipoInt)
    ensures VerificaExpr(t, e).Success? ==> VerificaExpr(t, e).value == TipoInt
  {
  }

  /** Assignment: accepted exactly when both sides type alike; the result is
      the left side's type. */
  lemma AtribuicaoMesmoTipoIff(t: Tabela, e: Node)
    requires e.kind == Atrib && AnExpr(e)
    ensures VerificaExpr(t, e).Success? <==>
              && VerificaExpr(t, e.children[0]).Success?
              && VerificaExpr(t, e.children[1]).Success?
              && VerificaExpr(t, e.children[0]).value == VerificaExpr(t, e.children[1]).value
    ensures VerificaExpr(t, e).Success? ==> VerificaExpr(t, e) == VerificaExpr(t, e.children[0])
  {
  }

  /** An identifier takes its symbol's type; an undeclared one fails at its
      own line. */
  lemma IdentificadorIff(t: Tabela, e: Node)
    requires e.kind == Id && AnExpr(e)
    ensures Buscar(t, e.text.value).None? ==> VerificaExpr(t, e) == Failure(Erro(IdNaoDeclarado, e.linha))
    ensures Buscar(t, e.text.value).Some? ==> VerificaExpr(t, e) == Success(Buscar(t, e.text.value).value.tipo)
  {
  }

  /** The argument walk succeeds exactly when every remaining argument types. */
  lemma {:induction false} VerificaArgsSucesso(t: Tabela, lista: Node, i: nat)
    requires i <= |lista.children|
    requires forall k :: 0 <= k < |lista.children| ==> AnExpr(lista.children[k])
    ensures VerificaArgs(t, lista, i).Success? <==>
              forall k :: i <= k < |lista.children| ==> VerificaExpr(t, lista.children[k]).Success?
    decreases |lista.children| - i
  {
    if i < |lista.children| {
      VerificaArgsSucesso(t, lista, i + 1);
      if VerificaExpr(t, lista.children[i]).Success? {
        assert VerificaArgs(t, lista, i) == VerificaArgs(t, lista, i + 1);
      } else {
        assert VerificaArgs(t, lista, i).Failure?;
      }
    }
  }

  /** A call is accepted exactly when its name resolves to a function, the
      argument count equals its parameter count and every argument types;
      the argument TYPES are never compared with the parameters'. The result
      is the function's return type. */
  lemma ChamadaIff(t: Tabela, e: Node)
    requires e.kind == ChamadaFuncao && AnExpr(e)
    ensures VerificaExpr(t, e).Success? <==>
              && Buscar(t, e.text.value).Some?
              && Buscar(t, e.text.value).value.categoria == Categoria.Funcao
              && NumArgs(e) == Buscar(t, e.text.value).value.numParametros
              && forall k :: 0 <= k < NumArgs(e) ==> VerificaExpr(t, e.children[0].children[k]).Success?
    ensures VerificaExpr(t, e).Success? ==> VerificaExpr(t, e).value == Buscar(t, e.text.value).value.tipo
    ensures Buscar(t, e.text.value).None? || Buscar(t, e.text.value).value.categoria != Categoria.Funcao
            ==> VerificaExpr(t, e) == Failure(Erro(FuncaoNaoDeclarada, e.linha))
    ensures && Buscar(t, e.text.value).Some?
            && Buscar(t, e.text.value).value.categoria == Categoria.Funcao
            && NumArgs(e) != Buscar(t, e.text.value).value.numParametros
            ==> VerificaExpr(t, e) == Failure(Erro(NumeroParametros, e.linha))
  {
    if |e.children| > 0 {
      VerificaArgsSucesso(t, e.children[0], 0);
    }
  }

  /** Any other node types as its last child, or `int` when childless. */
  lemma AgrupadorUltimoFilho(t: Tabela, e: Node)
    requires AnExpr(e)
    requires e.kind !in {Int, Car, Id, Atrib, Op, ChamadaFuncao}
    ensures |e.children| == 0 ==> VerificaExpr(t, e) == Success(TipoInt)
    ensures |e.children| > 0 ==> VerificaExpr(t, e) == VerificaExpr(t, e.children[|e.children| - 1])
  {
  }

  // ---------------------------------------------------------------------
  // Where an undeclared identifier is reported
  // ---------------------------------------------------------------------

  /** Some identifier node in `e`, at line `l`, names nothing visible. */
  predicate IdNaoDeclaradoEm(t: Tabela, e: Node, l: int)
    decreases e
  {
    || (e.kind == Id && e.text.Some? && Buscar(t, e.text.value).None? && e.linha == l)
    || exists i :: 0 <= i < |e.children| && IdNaoDeclaradoEm(t, e.children[i], l)
  }

  /** An undeclared-identifier failure names the line of an identifier in
      the expression that really is undeclared. */
  lemma {:induction false} IdNaoDeclaradoLocalizado(t: Tabela, e: Node, l: int)
    requires AnExpr(e)
    requires VerificaExpr(t, e) == Failure(Erro(IdNaoDeclarado, l))
    ensures IdNaoDeclaradoEm(t, e, l)
    decreases e, 1, 0
  {
    if e.kind == Atrib {
      if VerificaExpr(t, e.children[0]).Failure? {
        IdNaoDeclaradoLocalizado(t, e.children[0], l);
        assert IdNaoDeclaradoEm(t, e.children[0], l);
      } else {
        IdNaoDeclaradoLocalizado(t, e.children[1], l);
        assert IdNaoDeclaradoEm(t, e.children[1], l);
      }
    } else if e.kind == Op {
      var op := e.text.value;
      if Binario(op) {
        if Aritmetico(op) || Logico(op) {
          BinarioLocalizado(t, e, TipoInt, l);
        } else if VerificaExpr(t, e.children[0]).Failure? {
          IdNaoDeclaradoLocalizado(t, e.children[0], l);
          assert IdNaoDeclaradoEm(t, e.children[0], l);
        } else {
          IdNaoDeclaradoLocalizado(t, e.children[1], l);
          assert IdNaoDeclaradoEm(t, e.children[1], l);
        }
      } else {
        IdNaoDeclaradoLocalizado(t, e.children[0], l);
        assert IdNaoDeclaradoEm(t, e.children[0], l);
      }
    } else if e.kind == ChamadaFuncao {
      var k := ArgsLocalizado(t, e.children[0], 0, l);
      assert IdNaoDeclaradoEm(t, e.children[0], l);
    } else if e.kind != Id {
      IdNaoDeclaradoLocalizado(t, e.children[|e.children| - 1], l);
      assert IdNaoDeclaradoEm(t, e.children[|e.children| - 1], l);
    }
  }

  lemma {:induction false} BinarioLocalizado(t: Tabela, e: Node, esperado: Tipo, l: int)
    requires e.kind == Op && AnExpr(e) && e.text.Some? && Binario(e.text.value)
    requires VerificaBinario(t, e, esperado) == Failure(Erro(IdNaoDeclarado, l))
    ensures IdNaoDeclaradoEm(t, e, l)
    decreases e, 0, 0
  {
    if VerificaExpr(t, e.children[0]).Failure? {
      IdNaoDeclaradoLocalizado(t, e.children[0], l);
      assert IdNaoDeclaradoEm(t, e.children[0], l);
    } else {
      IdNaoDeclaradoLocalizado(t, e.children[1], l);
      assert IdNaoDeclaradoEm(t, e.children[1], l);
    }
  }

  lemma {:induction false} ArgsLocalizado(t: Tabela, lista: Node, i: nat, l: int) returns (k: nat)
    requires i <= |lista.children|
    requires forall j :: 0 <= j < |lista.children| ==> AnExpr(lista.children[j])
    requires VerificaArgs(t, lista, i) == Failure(Erro(IdNaoDeclarado, l))
    ensures i <= k < |lista.children| && IdNaoDeclaradoEm(t, lista.children[k], l)
    decreases lista, 0, |lista.children| - i
  {
    if VerificaExpr(t, lista.children[i]).Failure? {
      IdNaoDeclaradoLocalizado(t, lista.children[i], l);
      k := i;
    } else {
      k := ArgsLocalizado(t, lista, i + 1, l);
    }
  }

  // ---------------------------------------------------------------------
  // Typing reads the table only through lookups
  // ---------------------------------------------------------------------

  /** Two tables answer every lookup alike. */
  ghost predicate MesmasBuscas(t1: Tabela, t2: Tabela) {
    forall nome :: Buscar(t1, nome) == Buscar(t2, nome)
  }

  /** Tables that answer every lookup alike type every expression alike;
      together with the scope round trip, an expression types the same
      before and after any block is analysed. */
  lemma {:induction false} ExprSoDependeDaBusca(t1: Tabela, t2: Tabela, e: Node)
    requires MesmasBuscas(t1, t2) && AnExpr(e)
    ensures VerificaExpr(t1, e) == VerificaExpr(t2, e)
    decreases e, 1, 0
  {
    if e.kind == Id || e.kind == ChamadaFuncao {
      assert Buscar(t1, e.text.value) == Buscar(t2, e.text.value);
      if e.kind == ChamadaFuncao && |e.children| > 0 {
        ArgsSoDependeDaBusca(t1, t2, e.children[0], 0);
      }
    } else if e.kind == Atrib {
      ExprSoDependeDaBusca(t1, t2, e.children[0]);
      ExprSoDependeDaBusca(t1, t2, e.children[1]);
    } else if e.kind == Op {
      OpSoDependeDaBusca(t1, t2, e);
    } else if e.kind != Int && e.kind != Car && |e.children| > 0 {
      ExprSoDependeDaBusca(t1, t2, e.children[|e.children| - 1]);
    }
  }

  lemma {:induction false} OpSoDependeDaBusca(t1: Tabela, t2: Tabela, e: Node)
    requires MesmasBuscas(t1, t2) && AnExpr(e) && e.kind == Op
    ensures VerificaExpr(t1, e) == VerificaExpr(t2, e)
    decreases e, 0, 0
  {
    var op := e.text.value;
    if Binario(op) {
      ExprSoDependeDaBusca(t1, t2, e.children[0]);
      ExprSoDependeDaBusca(t1, t2, e.children[1]);
      if Aritmetico(op) || Logico(op) {
        assert VerificaBinario(t1, e, TipoInt) == VerificaBinario(t2, e, TipoInt);
      }
    } else if Unario(op) {
      ExprSoDependeDaBusca(t1, t2, e.children[0]);
    }
  }

  lemma {:induction false} ArgsSoDependeDaBusca(t1: Tabela, t2: Tabela, lista: Node, i: nat)
    requires MesmasBuscas(t1, t2) && i <= |lista.children|
    requires forall k :: 0 <= k < |lista.children| ==> AnExpr(lista.children[k])
    ensures VerificaArgs(t1, lista, i) == VerificaArgs(t2, lista, i)
    decreases lista, 0, |lista.children| - i
  {
    if i < |lista.children| {
      ExprSoDependeDaBusca(t1, t2, lista.children[i]);
      ArgsSoDependeDaBusca(t1, t2, lista, i + 1);
    }
  }

  // ---------------------------------------------------------------------
  // Statements and declarations
  // ---------------------------------------------------------------------

  /** `retorne e` is accepted exactly when `e` has the function's return type. */
  lemma RetorneExigeTipoIff(t: Tabela, c: Node, ret: Tipo)
    requires c.kind == Retorne && AnCmd(c)
    ensures VerificaComando(t, c, ret).Success? <==> VerificaExpr(t, c.children[0]) == Success(ret)
    ensures VerificaExpr(t, c.children[0]).Success? && VerificaExpr(t, c.children[0]).value != ret
            ==> VerificaComando(t, c, ret) == Failure(Erro(RetorneIncompativel, c.linha))
  {
  }

  /** A call used as a statement is not checked at all: the statement walk
      only types assignments, reads, writes, returns and conditions. */
  lemma ChamadaComoComandoNaoVerificada(t: Tabela, c: Node, ret: Tipo)
    requires c.kind == ChamadaFuncao && AnCmd(c)
    ensures VerificaComando(t, c, ret) == Success(t)
  {
  }

  /** A block whose first local names a visible variable or parameter is
      rejected at that declaration's line: a local cannot shadow a variable
      of an enclosing scope (it may shadow a function name). */
  lemma LocalNaoSombreiaVariavel(t: Tabela, b: Node, ret: Tipo)
    requires AnBloco(b) && |t| < MaxEscopos
    requires |b.children[0].children| > 0
    requires b.children[0].children[0].kind == DeclVariavel && b.children[0].children[0].text.Some?
    requires Buscar(t, b.children[0].children[0].text.value).Some?
    requires Buscar(t, b.children[0].children[0].text.value).value.categoria != Categoria.Funcao
    ensures PercorreBloco(t, b, ret) == Failure(Erro(JaDeclarado, b.children[0].children[0].linha))
  {
    var v := b.children[0].children[0];
    BuscarAposNovoEscopo(t, v.text.value);
    var t1 := NovoEscopoOuFalha(t).value;
    assert DeclaraLocal(t1, v) == Failure(Erro(JaDeclarado, v.linha));
  }

  // ---------------------------------------------------------------------
  // Parser-built trees satisfy the analyser's demands
  // ---------------------------------------------------------------------

  lemma {:induction false} WfExprAn(e: Node)
    requires WfExpr(e)
    ensures AnExpr(e)
    decreases e
  {
    if e.kind == Atrib {
      WfExprAn(e.children[1]);
    } else if e.kind == Op {
      forall i | 0 <= i < |e.children|
        ensures AnExpr(e.children[i])
      {
        WfExprAn(e.children[i]);
      }
    } else if e.kind == ChamadaFuncao && |e.children| > 0 {
      forall i | 0 <= i < |e.children[0].children|
        ensures AnExpr(e.children[0].children[i])
      {
        WfExprAn(e.children[0].children[i]);
      }
    }
  }

  lemma WfValorAn(e: Node)
    requires WfValor(e)
    ensures AnExpr(e)
  {
    if WfExpr(e) {
      WfExprAn(e);
    }
  }

  lemma {:induction false} WfCmdAn(c: Node)
    requires WfCmd(c)
    ensures AnCmd(c)
    decreases c, 1
  {
    if c.kind == Retorne {
      WfExprAn(c.children[0]);
    } else if c.kind == Escrita {
      WfValorAn(c.children[0]);
    } else if c.kind == Se || c.kind == Enquanto {
      WfExprAn(c.children[0]);
      WfCmdAn(c.children[1]);
    } else if c.kind == Senao {
      WfSenaoAn(c);
    } else if c.kind == Bloco {
      WfListaAn(c.children[1]);
    } else if c.kind == Atrib {
      WfExprAn(c);
    }
  }

  lemma {:induction false} WfSenaoAn(c: Node)
    requires WfCmd(c) && c.kind == Senao
    ensures AnCmd(c)
    decreases c, 0
  {
    var se := c.children[0];
    WfExprAn(se.children[0]);
    WfCmdAn(se.children[1]);
    assert AnCmd(se);
    WfCmdAn(c.children[1]);
  }

  lemma {:induction false} WfListaAn(l: Node)
    requires l.kind == ListaComando && forall i :: 0 <= i < |l.children| ==> WfCmd(l.children[i])
    ensures AnCmd(l)
    decreases l, 2
  {
    forall i | 0 <= i < |l.children|
      ensures AnCmd(l.children[i])
    {
      WfCmdAn(l.children[i]);
    }
  }

  lemma WfDeclFuncaoAn(d: Node)
    requires WfDeclFuncao(d)
    ensures AnFuncao(d)
  {
    WfCmdAn(d.children[1].children[1]);
  }

  /** Every program the parser can build meets the analyser's demands. */
  lemma WfProgramaAn(r: Node)
    requires WfPrograma(r)
    ensures AnPrograma(r)
  {
    var l := r.children[0];
    forall i | 0 <= i < |l.children|
      ensures AnGlobal(l.children[i])
    {
      if WfDeclFuncao(l.children[i]) {
        WfDeclFuncaoAn(l.children[i]);
      }
    }
    WfCmdAn(r.children[1].children[0]);
  }
}
