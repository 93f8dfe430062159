/** Local labels `L<n>` in generated code: each statement defines exactly
    the local labels it draws, each once, and its `beq` and `j`
    instructions target only local labels it defines or its function's
    exit label; a function's code is closed under them. A call's `jal` and
    the function labels `main` and `user_<f>` are outside this discipline. */
module CodigoRotulos {
  import opened Resultado
  import opened Ast
  import opened Formas
  import opened Rotulos
  import opened Mips
  import opened Codigo
  import opened RotulosLocais

  // ---------------------------------------------------------------------
  // The generator's statements and functions
  // ---------------------------------------------------------------------

  /** Statements without sub-statements define no local label; the only
      `beq` or `j` among them is `retorne`'s jump to the exit label. */
  lemma RotulosSimples(env: Ambiente, g: Gen, c: Node)
    requires ComandoGeravel(c) && c.kind !in {Se, Senao, Enquanto, Bloco} && g.temps <= NTemp
    requires GeraSimples(env, g, c).Success?
    ensures RotulosOk(GeraSimples(env, g, c).value.code, g.rotulo, GeraSimples(env, g, c).value.g.rotulo, {env.saida})
  {
    var r := GeraSimples(env, g, c).value;
    if c.kind == Retorne {
      RotulosRetorne(env, g, c);
    } else {
      Nenhum(r.code, {env.saida});
      assert Faixa(g.rotulo, g.rotulo) == {};
    }
  }

  lemma RotulosRetorne(env: Ambiente, g: Gen, c: Node)
    requires ComandoGeravel(c) && c.kind == Retorne && g.temps <= NTemp
    requires GeraSimples(env, g, c).Success?
    ensures RotulosOk(GeraSimples(env, g, c).value.code, g.rotulo, g.rotulo, {env.saida})
  {
    var e := {env.saida};
    var x := GeraExpr(env, g, c.children[0]).value;
    assert GeraSimples(env, g, c).value.code == x.code + [Move(V0, x.reg)] + [J(RotLocal(env.saida))];
    Nenhum(x.code + [Move(V0, x.reg)], e);
    SufixoSalto(x.code + [Move(V0, x.reg)], J(RotLocal(env.saida)), env.saida, {}, e);
    assert Faixa(g.rotulo, g.rotulo) == {};
  }

  lemma {:induction false} RotulosComando(env: Ambiente, g: Gen, c: Node)
    requires ComandoGeravel(c) && g.temps <= NTemp && GeraComando(env, g, c).Success?
    ensures RotulosOk(GeraComando(env, g, c).value.code, g.rotulo, GeraComando(env, g, c).value.g.rotulo, {env.saida})
    decreases c, 2, 0
  {
    var r := GeraComando(env, g, c).value;
    if c.kind == Se {
      MedidasCondicional(c);
      var cond := GeraExpr(env, NovoRotulo(g).0, c.children[0]).value;
      RotulosCorpoSe(env, c.children[1], cond, g.rotulo, r);
    } else if c.kind == Senao {
      MedidasSenao(c);
      var cond := GeraExpr(env, NovoRotulo(NovoRotulo(g).0).0, c.children[0].children[0]).value;
      RotulosRamos(env, c, cond, g.rotulo, r);
    } else if c.kind == Enquanto {
      MedidasCondicional(c);
      var cond := GeraExpr(env, NovoRotulo(NovoRotulo(g).0).0, c.children[0]).value;
      RotulosCorpoEnquanto(env, c.children[1], cond, g.rotulo, r);
    } else if c.kind == Bloco {
      RotulosLista(env, g, c.children[1], 0);
    } else {
      RotulosSimples(env, g, c);
    }
  }

  lemma {:induction false} RotulosCorpoSe(env: Ambiente, corpo: Node, cond: ExprGerada, n: nat, r: Gerado)
    requires ComandoGeravel(corpo) && cond.g.temps <= NTemp && cond.g.rotulo == n + 1 && SemRotulosLocais(cond.code)
    requires GeraCorpoSe(env, corpo, cond, RotLocal(n)) == Success(r)
    ensures RotulosOk(r.code, n, r.g.rotulo, {env.saida})
    decreases corpo, 3, 0
  {
    var x := GeraComando(env, Tfree(cond.g), corpo).value;
    RotulosComando(env, Tfree(cond.g), corpo);
    FormaSe(cond.code, cond.reg, x.code, n, x.g.rotulo, env.saida);
    assert r == Gerado(x.g, cond.code + [Beq(cond.reg, Zero, RotLocal(n))] + x.code + [Marca(RotLocal(n))]);
  }

  lemma {:induction false} RotulosRamos(env: Ambiente, c: Node, cond: ExprGerada, n: nat, r: Gerado)
    requires |c.children| == 2 && |c.children[0].children| == 2
    requires ComandoGeravel(c.children[0].children[1]) && ComandoGeravel(c.children[1]) && cond.g.temps <= NTemp
    requires cond.g.rotulo == n + 2 && SemRotulosLocais(cond.code)
    requires GeraRamos(env, c, cond, RotLocal(n), RotLocal(n + 1)) == Success(r)
    ensures RotulosOk(r.code, n, r.g.rotulo, {env.saida})
    decreases c, 0, 0
  {
    var gc := Tfree(cond.g);
    var entao := GeraComando(env, gc, c.children[0].children[1]).value;
    RotulosComando(env, gc, c.children[0].children[1]);
    RotulosSenaoFim(env, c.children[1], cond, entao, n, r);
  }

  lemma {:induction false} RotulosSenaoFim(env: Ambiente, outro: Node, cond: ExprGerada, entao: Gerado, n: nat, r: Gerado)
    requires ComandoGeravel(outro) && entao.g.temps <= NTemp && SemRotulosLocais(cond.code)
    requires n + 2 <= entao.g.rotulo && RotulosOk(entao.code, n + 2, entao.g.rotulo, {env.saida})
    requires GeraSenaoFim(env, outro, cond, entao, RotLocal(n), RotLocal(n + 1)) == Success(r)
    ensures RotulosOk(r.code, n, r.g.rotulo, {env.saida})
    decreases outro, 3, 0
  {
    var x := GeraComando(env, entao.g, outro).value;
    SenaoFimCodigo(env, outro, cond, entao, n, r, x);
    RotulosComando(env, entao.g, outro);
    SenaoFimOk(r.code, cond.code, cond.reg, entao.code, x.code, n, entao.g.rotulo, r.g.rotulo, env.saida);
  }

  /** `FormaSenao` for code known equal to the if-else layout. */
  lemma SenaoFimOk(code: seq<Instr>, cond: seq<Instr>, reg: Reg, entao: seq<Instr>, outro: seq<Instr>,
                   n: nat, meio: nat, hi: nat, saida: nat)
    requires code == cond + [Beq(reg, Zero, RotLocal(n))] + entao + [J(RotLocal(n + 1)), Marca(RotLocal(n))]
                     + outro + [Marca(RotLocal(n + 1))]
    requires n + 2 <= meio <= hi && SemRotulosLocais(cond)
    requires RotulosOk(entao, n + 2, meio, {saida}) && RotulosOk(outro, meio, hi, {saida})
    ensures RotulosOk(code, n, hi, {saida})
  {
    FormaSenao(cond, reg, entao, outro, n, n + 1, n + 2, meio, hi, saida);
  }

  /** The code of an if-else's tail, with the else branch's code `x`. */
  lemma SenaoFimCodigo(env: Ambiente, outro: Node, cond: ExprGerada, entao: Gerado, n: nat, r: Gerado, x: Gerado)
    requires ComandoGeravel(outro) && entao.g.temps <= NTemp
    requires GeraSenaoFim(env, outro, cond, entao, RotLocal(n), RotLocal(n + 1)) == Success(r)
    requires GeraComando(env, entao.g, outro) == Success(x)
    ensures r == Gerado(x.g, cond.code + [Beq(cond.reg, Zero, RotLocal(n))] + entao.code + [J(RotLocal(n + 1)), Marca(RotLocal(n))]
                             + x.code + [Marca(RotLocal(n + 1))])
  {
  }

  lemma {:induction false} RotulosCorpoEnquanto(env: Ambiente, corpo: Node, cond: ExprGerada, n: nat, r: Gerado)
    requires ComandoGeravel(corpo) && cond.g.temps <= NTemp && cond.g.rotulo == n + 2 && SemRotulosLocais(cond.code)
    requires GeraCorpoEnquanto(env, corpo, cond, RotLocal(n), RotLocal(n + 1)) == Success(r)
    ensures RotulosOk(r.code, n, r.g.rotulo, {env.saida})
    decreases corpo, 3, 0
  {
    var x := GeraComando(env, Tfree(cond.g), corpo).value;
    RotulosComando(env, Tfree(cond.g), corpo);
    FormaEnquanto(cond.code, cond.reg, x.code, n, x.g.rotulo, env.saida);
    assert r == Gerado(x.g, [Marca(RotLocal(n))] + cond.code + [Beq(cond.reg, Zero, RotLocal(n + 1))] + x.code
                            + [J(RotLocal(n)), Marca(RotLocal(n + 1))]);
  }

  lemma {:induction false} RotulosLista(env: Ambiente, g: Gen, l: Node, i: nat)
    requires i <= |l.children| && g.temps <= NTemp
    requires forall k :: 0 <= k < |l.children| ==> ComandoGeravel(l.children[k])
    requires GeraLista(env, g, l, i).Success?
    ensures RotulosOk(GeraLista(env, g, l, i).value.code, g.rotulo, GeraLista(env, g, l, i).value.g.rotulo, {env.saida})
    decreases l, 0, |l.children| - i
  {
    if i == |l.children| {
      Nenhum([], {env.saida});
      assert Faixa(g.rotulo, g.rotulo) == {};
    } else {
      var x := GeraComando(env, g, l.children[i]).value;
      RotulosComando(env, g, l.children[i]);
      RotulosLista(env, x.g, l, i + 1);
      var resto := GeraLista(env, x.g, l, i + 1).value;
      FormaSequencia(x.code, resto.code, g.rotulo, x.g.rotulo, resto.g.rotulo, {env.saida});
      assert GeraLista(env, g, l, i).value == Gerado(resto.g, x.code + resto.code);
    }
  }

  lemma PrologoSemRotulos(nome: string, tam: int, np: nat)
    ensures SemRotulosLocais(Prologo(nome, tam, np)) && SemRotulosLocais(Retorno(tam))
  {
    var cabeca, quadro, guarda := Cabecalho(nome), AbreQuadro(tam), GuardaArgs(np);
    assert SemRotulosLocais(guarda);
    assert SemRotulosLocais(cabeca) && SemRotulosLocais(quadro);
    SemRotulosJunta(cabeca, quadro);
    SemRotulosJunta(cabeca + quadro, guarda);
  }

  /** A function's code defines its exit label and its body's local
      labels, each once, and every `beq` or `j` in it targets a local label
      it defines. */
  lemma RotulosFuncao(pool: Literais.Pool, g: Gen, d: Node)
    requires GeravelFuncao(d) && g.temps <= NTemp && GeraFuncao(pool, g, d).Success?
    ensures RotulosOk(GeraFuncao(pool, g, d).value.code, g.rotulo, GeraFuncao(pool, g, d).value.g.rotulo, {})
  {
    var b := BlocoDe(d);
    var g1 := NovoRotulo(g).0;
    var env := Ambiente(QuadroDe(d), pool, g.rotulo);
    var corpo := GeraComando(env, g1, b).value;
    RotulosComando(env, g1, b);
    var tam := TamanhoDe(d);
    PrologoSemRotulos(d.text.value, tam, NumParams(d));
    FormaCorpo(Prologo(d.text.value, tam, NumParams(d)), corpo.code, Retorno(tam), g.rotulo, corpo.g.rotulo);
    assert GeraFuncao(pool, g, d).value
        == Gerado(corpo.g, Prologo(d.text.value, tam, NumParams(d)) + corpo.code + Epilogo(RotLocal(g.rotulo), tam));
  }

  /** The functions of a declaration list, one after another. */
  lemma {:induction false} RotulosFuncoes(pool: Literais.Pool, g: Gen, lista: Node, i: nat)
    requires i <= |lista.children| && g.temps <= NTemp && FuncoesGeraveis(lista)
    requires GeraFuncoes(pool, g, lista, i).Success?
    ensures RotulosOk(GeraFuncoes(pool, g, lista, i).value.code, g.rotulo, GeraFuncoes(pool, g, lista, i).value.g.rotulo, {})
    decreases |lista.children| - i
  {
    if i == |lista.children| {
      Nenhum([], {});
      assert Faixa(g.rotulo, g.rotulo) == {};
    } else if lista.children[i].kind == DeclFuncao {
      var f := GeraFuncao(pool, g, lista.children[i]).value;
      RotulosFuncao(pool, g, lista.children[i]);
      RotulosFuncoes(pool, f.g, lista, i + 1);
      var resto := GeraFuncoes(pool, f.g, lista, i + 1).value;
      FuncoesPasso(pool, g, lista, i, f, resto);
      FormaSequencia(f.code, resto.code, g.rotulo, f.g.rotulo, resto.g.rotulo, {});
    } else {
      RotulosFuncoes(pool, g, lista, i + 1);
    }
  }

  /** One declared function followed by the rest: their code in order. */
  lemma FuncoesPasso(pool: Literais.Pool, g: Gen, lista: Node, i: nat, f: Gerado, resto: Gerado)
    requires i < |lista.children| && g.temps <= NTemp && FuncoesGeraveis(lista)
    requires lista.children[i].kind == DeclFuncao
    requires GeraFuncao(pool, g, lista.children[i]) == Success(f) && f.g.temps <= NTemp
    requires GeraFuncoes(pool, f.g, lista, i + 1) == Success(resto)
    ensures GeraFuncoes(pool, g, lista, i) == Success(Gerado(resto.g, f.code + resto.code))
  {
  }
}
