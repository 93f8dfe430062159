/** The generator's entry point: the literal pass, the data section, the
    `.text` marker, every declared function in order and then `programa`. */
module Gerador {
  import opened Resultado
  import opened Ast
  import opened Formas
  import opened Rotulos
  import opened Mips
  import opened Literais
  import opened Codigo
  import opened RotulosLocais
  import opened CodigoRotulos

  /** What the entry point reads of the root: named globals and readable
      functions in the first child, a readable entry point in the second,
      and text on every string literal. */
  predicate ProgramaGeravel(raiz: Node) {
    && StrsComTexto(raiz)
    && (|raiz.children| > 0 ==> GlobaisNomeados(raiz.children[0]) && FuncoesGeraveis(raiz.children[0]))
    && (|raiz.children| > 1 ==> GeravelFuncao(raiz.children[1]))
  }

  /** The label state at the start: no temporary live, label counter at 0. */
  const GenInicial: Gen := Gen(0, 0)

  /** The functions of the global list, or none when the root is childless. */
  function GeraGlobais(pool: Pool, raiz: Node): (r: Result<Gerado, FalhaGen>)
    requires ProgramaGeravel(raiz)
    ensures r.Success? ==> r.value.g.temps == 0
    ensures |raiz.children| == 0 ==> r == Success(Gerado(GenInicial, []))
  {
    if |raiz.children| > 0 then GeraFuncoes(pool, GenInicial, raiz.children[0], 0)
    else Success(Gerado(GenInicial, []))
  }

  /** The entry point, or nothing when the root has no second child. */
  function GeraEntrada(pool: Pool, g: Gen, raiz: Node): (r: Result<Gerado, FalhaGen>)
    requires ProgramaGeravel(raiz) && g.temps <= NTemp
    ensures r.Success? ==> r.value.g.temps == g.temps && r.value.g.rotulo >= g.rotulo
    ensures |raiz.children| <= 1 ==> r == Success(Gerado(g, []))
  {
    if |raiz.children| > 1 then GeraFuncao(pool, g, raiz.children[1])
    else Success(Gerado(g, []))
  }

  /** `gerar_codigo_mips` with the output file replaced by the returned
      instruction list. */
  function GerarCodigo(raiz: Node): (r: Result<seq<Instr>, FalhaGen>)
    requires ProgramaGeravel(raiz)
    ensures r.Success? ==> |r.value| >= 3 && r.value[..2] == [SecaoData, Asciiz(RotNl, TextoNl)]
    ensures r.Success? ==> SecaoText in r.value
  {
    var pool := Coleta(PoolVazio, raiz);
    var fs :- GeraGlobais(pool, raiz);
    var prog :- GeraEntrada(pool, fs.g, raiz);
    var dados := SecaoDados(pool, raiz);
    assert (dados + [SecaoText] + fs.code + prog.code)[|dados|] == SecaoText;
    Success(dados + [SecaoText] + fs.code + prog.code)
  }

  // ---------------------------------------------------------------------
  // Labels of the whole program
  // ---------------------------------------------------------------------

  /** The data section neither defines nor targets a local label. */
  lemma DadosSemRotulos(p: Pool, raiz: Node)
    requires |raiz.children| > 0 ==> GlobaisNomeados(raiz.children[0])
    ensures SemRotulosLocais(SecaoDados(p, raiz) + [SecaoText])
  {
    var s := DadosStrings(p.entradas);
    assert SemRotulosLocais(s);
    var gl := if |raiz.children| > 0 then DadosGlobais(raiz.children[0], 0) else [];
    assert SemRotulosLocais(gl);
    SemRotulosJunta([SecaoData, Asciiz(RotNl, TextoNl)], s);
    SemRotulosJunta([SecaoData, Asciiz(RotNl, TextoNl)] + s, gl);
    SemRotulosJunta(SecaoDados(p, raiz), [SecaoText]);
  }

  /** In the emitted program no local label `L<n>` is defined twice and
      every `beq` or `j` lands on a local label the program defines. The
      targets of `jal` are not covered: a call statement to an undeclared
      function passes analysis and leaves a `jal user_<f>` with no such
      label. */
  lemma ProgramaRotulosOk(raiz: Node, code: seq<Instr>)
    requires ProgramaGeravel(raiz) && GerarCodigo(raiz) == Success(code)
    ensures Unicos(Defs(code)) && Fechado(code, {})
  {
    var pool := Coleta(PoolVazio, raiz);
    var fs := GeraGlobais(pool, raiz).value;
    var prog := GeraEntrada(pool, fs.g, raiz).value;
    var dados := SecaoDados(pool, raiz) + [SecaoText];
    assert code == dados + fs.code + prog.code;
    if |raiz.children| > 0 {
      RotulosFuncoes(pool, GenInicial, raiz.children[0], 0);
    } else {
      Nenhum([], {});
    }
    if |raiz.children| > 1 {
      RotulosFuncao(pool, fs.g, raiz.children[1]);
    } else {
      Nenhum([], {});
    }
    assert Faixa(fs.g.rotulo, fs.g.rotulo) == {} && Faixa(0, 0) == {};
    DadosSemRotulos(pool, raiz);
    Nenhum(dados, {});
    FormaSequencia(dados, fs.code, 0, 0, fs.g.rotulo, {});
    FormaSequencia(dados + fs.code, prog.code, 0, fs.g.rotulo, prog.g.rotulo, {});
  }

  // ---------------------------------------------------------------------
  // When generation succeeds
  // ---------------------------------------------------------------------

  /** A declaration the generator reads and accepts. */
  predicate DeclaracaoAceita(d: Node) {
    GeravelFuncao(d) && (FormaFuncao(d) || FormaPrograma(d))
  }

  /** Every function from `i` on fits in the temporaries left by `temps`. */
  predicate FuncoesCabem(lista: Node, i: nat, temps: nat) {
    forall k :: i <= k < |lista.children| && lista.children[k].kind == DeclFuncao ==>
      DeclaracaoAceita(lista.children[k]) && temps + DemandaCmd(BlocoDe(lista.children[k])) <= NTemp
  }

  /** One step of `FuncoesCabem`: the function at `i`, then the rest. */
  lemma FuncoesCabemPasso(lista: Node, i: nat, temps: nat)
    requires i < |lista.children|
    ensures FuncoesCabem(lista, i, temps) <==>
              && FuncoesCabem(lista, i + 1, temps)
              && (lista.children[i].kind == DeclFuncao ==>
                    DeclaracaoAceita(lista.children[i]) && temps + DemandaCmd(BlocoDe(lista.children[i])) <= NTemp)
  {
    if FuncoesCabem(lista, i + 1, temps) && lista.children[i].kind == DeclFuncao && DeclaracaoAceita(lista.children[i])
       && temps + DemandaCmd(BlocoDe(lista.children[i])) <= NTemp {
      forall k | i <= k < |lista.children| && lista.children[k].kind == DeclFuncao
        ensures DeclaracaoAceita(lista.children[k]) && temps + DemandaCmd(BlocoDe(lista.children[k])) <= NTemp
      {
        if k > i {
          assert i + 1 <= k;
        }
      }
    }
  }

  /** The function list succeeds exactly when every function's body fits
      in the temporaries, and otherwise runs out of them. */
  lemma {:induction false} GeraFuncoesSucesso(pool: Pool, g: Gen, lista: Node, i: nat)
    requires i <= |lista.children| && g.temps <= NTemp && FuncoesGeraveis(lista)
    requires forall k :: 0 <= k < |lista.children| && lista.children[k].kind == DeclFuncao ==>
               FormaFuncao(lista.children[k]) || FormaPrograma(lista.children[k])
    ensures GeraFuncoes(pool, g, lista, i).Success? <==> FuncoesCabem(lista, i, g.temps)
    ensures GeraFuncoes(pool, g, lista, i).Failure? ==> GeraFuncoes(pool, g, lista, i).error == TemporariosEsgotados
    decreases |lista.children| - i
  {
    var r := GeraFuncoes(pool, g, lista, i);
    if i < |lista.children| {
      var d := lista.children[i];
      FuncoesCabemPasso(lista, i, g.temps);
      if d.kind == DeclFuncao {
        assert DeclaracaoAceita(d);
        var f := GeraFuncao(pool, g, d);
        if f.Success? {
          var resto := GeraFuncoes(pool, f.value.g, lista, i + 1);
          GeraFuncoesSucesso(pool, f.value.g, lista, i + 1);
          assert r.Success? <==> resto.Success?;
          assert r.Failure? ==> r == Failure(resto.error);
        } else {
          assert r == Failure(f.error);
        }
      } else {
        GeraFuncoesSucesso(pool, g, lista, i + 1);
        assert r == GeraFuncoes(pool, g, lista, i + 1);
      }
    }
  }

  /** A program as the parser builds it can be read by the generator. */
  lemma WfProgramaGeravel(raiz: Node)
    requires WfPrograma(raiz)
    ensures ProgramaGeravel(raiz)
    ensures forall k :: 0 <= k < |raiz.children[0].children| && raiz.children[0].children[k].kind == DeclFuncao ==>
              FormaFuncao(raiz.children[0].children[k])
    ensures DeclaracaoAceita(raiz.children[1]) && FormaPrograma(raiz.children[1])
  {
    WfProgramaTexto(raiz);
    var l := raiz.children[0];
    forall k | 0 <= k < |l.children| && l.children[k].kind == DeclFuncao
      ensures GeravelFuncao(l.children[k]) && FormaFuncao(l.children[k])
    {
      assert WfDeclFuncao(l.children[k]);
    }
  }

  /** For a program as the parser builds it, code generation fails only by
      running out of temporaries, and does so exactly when some function
      body or the entry block needs more than there are. */
  lemma GerarCodigoSucesso(raiz: Node)
    requires WfPrograma(raiz)
    ensures ProgramaGeravel(raiz)
    ensures GerarCodigo(raiz).Success? <==>
              FuncoesCabem(raiz.children[0], 0, 0) && DemandaCmd(raiz.children[1].children[0]) <= NTemp
    ensures GerarCodigo(raiz).Failure? ==> GerarCodigo(raiz).error == TemporariosEsgotados
  {
    WfProgramaGeravel(raiz);
    var pool := Coleta(PoolVazio, raiz);
    var lista, d := raiz.children[0], raiz.children[1];
    GeraFuncoesSucesso(pool, GenInicial, lista, 0);
    var fs := GeraGlobais(pool, raiz);
    assert fs == GeraFuncoes(pool, GenInicial, lista, 0);
    if fs.Success? {
      EntradaSucesso(pool, fs.value.g, raiz);
      var prog := GeraEntrada(pool, fs.value.g, raiz);
      assert GerarCodigo(raiz).Success? <==> prog.Success?;
      assert prog.Failure? ==> GerarCodigo(raiz) == Failure(prog.error);
    } else {
      assert GerarCodigo(raiz) == Failure(fs.error);
    }
  }

  /** The entry point of a well-formed program succeeds exactly when its
      block fits in the temporaries left free. */
  lemma EntradaSucesso(pool: Pool, g: Gen, raiz: Node)
    requires WfPrograma(raiz) && ProgramaGeravel(raiz) && g.temps <= NTemp
    ensures GeraEntrada(pool, g, raiz).Success? <==> g.temps + DemandaCmd(raiz.children[1].children[0]) <= NTemp
    ensures GeraEntrada(pool, g, raiz).Failure? ==> GeraEntrada(pool, g, raiz).error == TemporariosEsgotados
  {
    var d := raiz.children[1];
    assert FormaPrograma(d) && BlocoDe(d) == d.children[0];
    assert GeraEntrada(pool, g, raiz) == GeraFuncao(pool, g, d);
  }

  // ---------------------------------------------------------------------
  // String literals of a well-formed tree carry their text
  // ---------------------------------------------------------------------

  /** A node other than a textless literal carries its literals' text
      once its children do. */
  lemma TextoPelosFilhos(n: Node)
    requires n.kind == Str ==> n.text.Some?
    requires forall i :: 0 <= i < |n.children| ==> StrsComTexto(n.children[i])
    ensures StrsComTexto(n)
  {
  }

  lemma TextoDoisFilhos(n: Node)
    requires n.kind != Str && |n.children| == 2
    requires StrsComTexto(n.children[0]) && StrsComTexto(n.children[1])
    ensures StrsComTexto(n)
  {
    TextoPelosFilhos(n);
  }

  lemma {:induction false} WfExprTexto(e: Node)
    requires WfExpr(e)
    ensures StrsComTexto(e)
    decreases e, 1
  {
    if e.kind == ChamadaFuncao && |e.children| == 1 {
      ListaExprTexto(e.children[0]);
    } else if e.kind == Atrib {
      TextoPelosFilhos(e.children[0]);
      WfExprTexto(e.children[1]);
      TextoDoisFilhos(e);
    } else if e.kind == Op {
      WfExprTexto(e.children[0]);
      if |e.children| == 2 {
        WfExprTexto(e.children[1]);
        TextoDoisFilhos(e);
      }
    }
  }

  lemma {:induction false} ListaExprTexto(l: Node)
    requires l.kind == ListaExpr && forall i :: 0 <= i < |l.children| ==> WfExpr(l.children[i])
    ensures StrsComTexto(l)
    decreases l, 0
  {
    forall i | 0 <= i < |l.children|
      ensures StrsComTexto(l.children[i])
    {
      WfExprTexto(l.children[i]);
    }
    TextoPelosFilhos(l);
  }

  lemma LocaisTexto(l: Node)
    requires WfLocais(l)
    ensures StrsComTexto(l)
  {
    forall i | 0 <= i < |l.children|
      ensures StrsComTexto(l.children[i])
    {
      var v := l.children[i];
      TextoPelosFilhos(v.children[0]);
      TextoPelosFilhos(v);
    }
    TextoPelosFilhos(l);
  }

  lemma {:induction false} WfCmdTexto(c: Node)
    requires ComandoGeravel(c)
    ensures StrsComTexto(c)
    decreases c, 2
  {
    if c.kind == Bloco {
      LocaisTexto(c.children[0]);
      ListaCmdTexto(c.children[1]);
      TextoDoisFilhos(c);
    } else if c.kind == Senao {
      SenaoTexto(c);
    } else if c.kind == Se || c.kind == Enquanto {
      WfExprTexto(c.children[0]);
      WfCmdTexto(c.children[1]);
      TextoDoisFilhos(c);
    } else if c.kind == Retorne || c.kind == Escrita || c.kind == Leitura {
      FilhoUnicoTexto(c);
    } else if c.kind == Comando || c.kind == NovaLinha {
      TextoPelosFilhos(c);
    } else {
      WfExprTexto(c);
    }
  }

  /** `retorne`, `escreva` and `leia`: one expression, literal or name. */
  lemma FilhoUnicoTexto(c: Node)
    requires |c.children| == 1 && c.kind != Str
    requires WfValor(c.children[0]) || IsId(c.children[0])
    ensures StrsComTexto(c)
  {
    var x := c.children[0];
    if WfExpr(x) {
      WfExprTexto(x);
    } else {
      TextoPelosFilhos(x);
    }
    TextoPelosFilhos(c);
  }

  lemma {:induction false} SenaoTexto(c: Node)
    requires ComandoGeravel(c) && c.kind == Senao
    ensures StrsComTexto(c)
    decreases c, 1
  {
    var se := c.children[0];
    WfExprTexto(se.children[0]);
    WfCmdTexto(se.children[1]);
    TextoDoisFilhos(se);
    WfCmdTexto(c.children[1]);
    TextoDoisFilhos(c);
  }

  lemma {:induction false} ListaCmdTexto(l: Node)
    requires forall i :: 0 <= i < |l.children| ==> ComandoGeravel(l.children[i])
    requires l.kind == ListaComando
    ensures StrsComTexto(l)
    decreases l, 0
  {
    forall i | 0 <= i < |l.children|
      ensures StrsComTexto(l.children[i])
    {
      WfCmdTexto(l.children[i]);
    }
    TextoPelosFilhos(l);
  }

  lemma DeclFuncaoTexto(d: Node)
    requires WfDeclFuncao(d)
    ensures StrsComTexto(d)
  {
    var f := d.children[1];
    ParamsTexto(f.children[0]);
    WfCmdTexto(f.children[1]);
    TextoDoisFilhos(f);
    TextoPelosFilhos(d.children[0]);
    TextoDoisFilhos(d);
  }

  lemma ParamsTexto(ps: Node)
    requires ps.kind == ListaParam && forall i :: 0 <= i < |ps.children| ==> WfParam(ps.children[i])
    ensures StrsComTexto(ps)
  {
    forall i | 0 <= i < |ps.children|
      ensures StrsComTexto(ps.children[i])
    {
      var p := ps.children[i];
      TextoPelosFilhos(p.children[0]);
      TextoPelosFilhos(p.children[1]);
      TextoDoisFilhos(p);
    }
    TextoPelosFilhos(ps);
  }

  lemma WfProgramaTexto(raiz: Node)
    requires WfPrograma(raiz)
    ensures StrsComTexto(raiz)
  {
    var l := raiz.children[0];
    forall i | 0 <= i < |l.children|
      ensures StrsComTexto(l.children[i])
    {
      var d := l.children[i];
      if WfDeclFuncao(d) {
        DeclFuncaoTexto(d);
      } else {
        TextoPelosFilhos(d.children[0]);
        TextoPelosFilhos(d);
      }
    }
    TextoPelosFilhos(l);
    var p := raiz.children[1];
    WfCmdTexto(p.children[0]);
    TextoPelosFilhos(p);
    TextoDoisFilhos(raiz);
  }
}
