/** The tree shapes the parser's semantic actions build, and the operator
    spellings they use. The code generator relies on these shapes; the
    builders below are the actions themselves, written with the node API. */
module Formas {
  import opened Resultado
  import opened Ast

  // Operator spellings carried in the text of an `Op` node.

  predicate Aritmetico(op: string) {
    op == "+" || op == "-" || op == "*" || op == "/"
  }

  predicate Relacional(op: string) {
    op == "<" || op == ">" || op == "<=" || op == ">=" || op == "==" || op == "!="
  }

  predicate Logico(op: string) {
    op == "ou" || op == "e"
  }

  predicate Unario(op: string) {
    op == "uminus" || op == "!"
  }

  predicate Binario(op: string) {
    Aritmetico(op) || Relacional(op) || Logico(op)
  }

  /** A type keyword node: `int` or `car`, childless. */
  predicate WfTipo(n: Node) {
    && n.children == []
    && ((n.kind == Int && n.text == Some("int")) || (n.kind == Car && n.text == Some("car")))
  }

  /** A named identifier leaf. */
  predicate IsId(n: Node) {
    n.kind == Id && n.text.Some? && n.children == []
  }

  /** A string literal leaf (only ever the argument of `escreva`). */
  predicate IsStr(n: Node) {
    n.kind == Str && n.text.Some? && n.children == []
  }

  /** An expression as the grammar builds it. */
  predicate WfExpr(e: Node)
    decreases e
  {
    if e.kind == Int then e.text.Some? && e.children == []
    else if e.kind == Car then e.text.Some? && |e.text.value| >= 1 && e.children == []
    else if e.kind == Id then IsId(e)
    else if e.kind == Atrib then |e.children| == 2 && IsId(e.children[0]) && WfExpr(e.children[1])
    else if e.kind == Op then
      && e.text.Some?
      && ((Binario(e.text.value) && |e.children| == 2 && WfExpr(e.children[0]) && WfExpr(e.children[1]))
          || (Unario(e.text.value) && |e.children| == 1 && WfExpr(e.children[0])))
    else if e.kind == ChamadaFuncao then
      && e.text.Some?
      && (|e.children| == 0
          || (&& |e.children| == 1
              && e.children[0].kind == ListaExpr
              && |e.children[0].children| >= 1
              && forall i :: 0 <= i < |e.children[0].children| ==> WfExpr(e.children[0].children[i])))
    else false
  }

  /** A value the generator can load into a register: an expression or a
      string literal. */
  predicate WfValor(e: Node) {
    WfExpr(e) || IsStr(e)
  }

  /** The local declarations of a block: one `DeclVariavel` per name, each
      holding its type node. */
  predicate WfLocais(l: Node) {
    && l.kind == ListaDeclVar
    && forall i :: 0 <= i < |l.children| ==> WfDeclVariavel(l.children[i])
  }

  predicate WfDeclVariavel(v: Node) {
    v.kind == DeclVariavel && v.text.Some? && |v.children| == 1 && WfTipo(v.children[0])
  }

  /** A statement as the grammar builds it; an if-else is an `Senao` node
      whose first child is the whole `Se` node. */
  predicate WfCmd(c: Node)
    decreases c
  {
    if c.kind == Comando || c.kind == NovaLinha then c.children == []
    else if c.kind == Retorne then |c.children| == 1 && WfExpr(c.children[0])
    else if c.kind == Leitura then |c.children| == 1 && IsId(c.children[0])
    else if c.kind == Escrita then |c.children| == 1 && WfValor(c.children[0])
    else if c.kind == Se || c.kind == Enquanto then
      |c.children| == 2 && WfExpr(c.children[0]) && WfCmd(c.children[1])
    else if c.kind == Senao then
      && |c.children| == 2
      && c.children[0].kind == Se
      && |c.children[0].children| == 2
      && WfExpr(c.children[0].children[0])
      && WfCmd(c.children[0].children[1])
      && WfCmd(c.children[1])
    else if c.kind == Bloco then
      && |c.children| == 2
      && WfLocais(c.children[0])
      && c.children[1].kind == ListaComando
      && forall i :: 0 <= i < |c.children[1].children| ==> WfCmd(c.children[1].children[i])
    else WfExpr(c)
  }

  /** A block: local declarations followed by a statement list. */
  predicate WfBloco(b: Node) {
    b.kind == Bloco && WfCmd(b)
  }

  /** A formal parameter: its type node and its identifier. */
  predicate WfParam(p: Node) {
    p.kind == Param && |p.children| == 2 && WfTipo(p.children[0]) && IsId(p.children[1])
  }

  /** A function declaration: `[type, Funcao[params, block]]`. */
  predicate WfDeclFuncao(d: Node) {
    && d.kind == DeclFuncao
    && d.text.Some?
    && |d.children| == 2
    && WfTipo(d.children[0])
    && d.children[1].kind == Funcao
    && |d.children[1].children| == 2
    && d.children[1].children[0].kind == ListaParam
    && (forall i :: 0 <= i < |d.children[1].children[0].children| ==> WfParam(d.children[1].children[0].children[i]))
    && WfBloco(d.children[1].children[1])
  }

  /** The entry point: a `DeclFuncao` named `programa` with one block child. */
  predicate WfDeclPrograma(d: Node) {
    d.kind == DeclFuncao && d.text == Some("programa") && |d.children| == 1 && WfBloco(d.children[0])
  }

  /** A whole program: the global declaration list and the entry point. */
  predicate WfPrograma(r: Node) {
    && r.kind == Programa
    && |r.children| == 2
    && r.children[0].kind == ListaDeclVar
    && (forall i :: 0 <= i < |r.children[0].children| ==>
          WfDeclVariavel(r.children[0].children[i]) || WfDeclFuncao(r.children[0].children[i]))
    && WfDeclPrograma(r.children[1])
  }

  // The parser's semantic actions that fix the shapes above.

  /** `se (cond) entao cmd` */
  function MkSe(cond: Node, entao: Node, linha: int): Node {
    CriaComFilhos(Se, None, linha, 2, [cond, entao])
  }

  /** `se (cond) entao cmd senao cmd`: the if node is wrapped, not widened. */
  function MkSenao(cond: Node, entao: Node, senao: Node, linha: int): (c: Node)
    ensures NumFilhos(c) == 2 && c.children[0] == MkSe(cond, entao, linha) && c.children[1] == senao
  {
    CriaComFilhos(Senao, None, linha, 2, [MkSe(cond, entao, linha), senao])
  }

  /** A function body: parameter list and block. */
  function MkFuncao(params: Node, bloco: Node, linha: int): Node {
    CriaComFilhos(Funcao, None, linha, 2, [params, bloco])
  }

  /** A function declaration, built by appending the type and the body. */
  function MkDeclFuncao(nome: string, tipo: Node, corpo: Node, linha: int): (d: Node)
    ensures d.kind == DeclFuncao && d.text == Some(nome) && d.children == [tipo, corpo]
  {
    AdicionaFilho(AdicionaFilho(Cria(DeclFuncao, Some(nome), linha), tipo), corpo)
  }

  /** The entry point `programa Bloco`. */
  function MkDeclPrograma(bloco: Node, linha: int): Node {
    CriaComFilhos(DeclFuncao, Some("programa"), linha, 1, [bloco])
  }

  /** The root: global declarations and the entry point. */
  function MkPrograma(decls: Node, prog: Node, linha: int): Node {
    CriaComFilhos(Programa, None, linha, 2, [decls, prog])
  }

  /** The if-else action builds a well-formed statement from well-formed parts. */
  lemma MkSenaoWf(cond: Node, entao: Node, senao: Node, linha: int)
    requires WfExpr(cond) && WfCmd(entao) && WfCmd(senao)
    ensures WfCmd(MkSenao(cond, entao, senao, linha))
    ensures MkSenao(cond, entao, senao, linha).children[0].kind == Se
  {
  }

  /** The declaration actions build a well-formed function declaration. */
  lemma MkDeclFuncaoWf(nome: string, tipo: Node, params: Node, bloco: Node, linha: int, linhaF: int)
    requires WfTipo(tipo) && WfBloco(bloco)
    requires params.kind == ListaParam && forall i :: 0 <= i < |params.children| ==> WfParam(params.children[i])
    ensures WfDeclFuncao(MkDeclFuncao(nome, tipo, MkFuncao(params, bloco, linhaF), linha))
  {
  }

  /** The root action over well-formed parts gives a well-formed program. */
  lemma MkProgramaWf(decls: Node, bloco: Node, linha: int, linhaP: int)
    requires decls.kind == ListaDeclVar
    requires forall i :: 0 <= i < |decls.children| ==>
               WfDeclVariavel(decls.children[i]) || WfDeclFuncao(decls.children[i])
    requires WfBloco(bloco)
    ensures WfPrograma(MkPrograma(decls, MkDeclPrograma(bloco, linhaP), linha))
  {
  }
}
