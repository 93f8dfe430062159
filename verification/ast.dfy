/** The generic syntax-tree node of the Goianinha compiler: a kind tag, an
    optional text payload (identifier, operator or literal), the source line
    and an ordered sequence of children. */
module Ast {
  import opened Resultado

  /** The closed set of node kinds, in the order of the source enumeration. */
  datatype Kind =
    | Programa | Funcao | DeclFuncao | DeclVariavel
    | ListaDeclVar | ListaComando | ListaParam | ListaExpr
    | Bloco | Comando | Atrib | Leitura | Escrita | Retorne | NovaLinha
    | Se | Senao | Enquanto
    | Op | Id | Int | Car | Str | ChamadaFuncao | Param

  const NumKinds: nat := 25

  /** Every kind, listed at the position of its enumeration value. */
  const AllKinds: seq<Kind> :=
    [ Programa, Funcao, DeclFuncao, DeclVariavel,
      ListaDeclVar, ListaComando, ListaParam, ListaExpr,
      Bloco, Comando, Atrib, Leitura, Escrita, Retorne, NovaLinha,
      Se, Senao, Enquanto,
      Op, Id, Int, Car, Str, ChamadaFuncao, Param ]

  /** The numeric value the enumeration gives each kind (`AST_PROGRAMA` is 0). */
  function Ordinal(k: Kind): (n: nat)
    ensures n < NumKinds
    ensures AllKinds[n] == k
  {
    match k
    case Programa => 0
    case Funcao => 1
    case DeclFuncao => 2
    case DeclVariavel => 3
    case ListaDeclVar => 4
    case ListaComando => 5
    case ListaParam => 6
    case ListaExpr => 7
    case Bloco => 8
    case Comando => 9
    case Atrib => 10
    case Leitura => 11
    case Escrita => 12
    case Retorne => 13
    case NovaLinha => 14
    case Se => 15
    case Senao => 16
    case Enquanto => 17
    case Op => 18
    case Id => 19
    case Int => 20
    case Car => 21
    case Str => 22
    case ChamadaFuncao => 23
    case Param => 24
  }

  /** The enumeration is exactly the listed kinds: ordinals and the listing
      are inverse bijections between `Kind` and `[0, NumKinds)`. */
  lemma KindEnumeration()
    ensures |AllKinds| == NumKinds
    ensures forall i :: 0 <= i < NumKinds ==> Ordinal(AllKinds[i]) == i
    ensures forall k1: Kind, k2: Kind :: Ordinal(k1) == Ordinal(k2) ==> k1 == k2
  {
    forall i | 0 <= i < NumKinds
      ensures Ordinal(AllKinds[i]) == i
    {
    }
  }

  /** A tree node; `children` is the child array and its length the child count. */
  datatype Node = Node(kind: Kind, text: Option<string>, linha: int, children: seq<Node>)

  /** Number of children of a node. */
  function NumFilhos(a: Node): nat
  {
    |a.children|
  }

  /** A childless node carrying the given kind, text (or none) and line. */
  function Cria(kind: Kind, text: Option<string>, linha: int): (a: Node)
    ensures NumFilhos(a) == 0
    ensures a.kind == kind && a.text == text && a.linha == linha
  {
    Node(kind, text, linha, [])
  }

  /** A node built with `n` children given in argument order; a count of
      zero or less yields a childless node and the arguments are ignored. */
  function CriaComFilhos(kind: Kind, text: Option<string>, linha: int, n: int, args: seq<Node>): (a: Node)
    requires n > 0 ==> |args| == n
    ensures a.kind == kind && a.text == text && a.linha == linha
    ensures n > 0 ==> NumFilhos(a) == n && forall i :: 0 <= i < n ==> a.children[i] == args[i]
    ensures n <= 0 ==> NumFilhos(a) == 0
  {
    var a := Cria(kind, text, linha);
    if n > 0 then a.(children := args) else a
  }

  /** Appends one child at the end; everything else about the node stays. */
  function AdicionaFilho(pai: Node, filho: Node): (a: Node)
    ensures a.kind == pai.kind && a.text == pai.text && a.linha == pai.linha
    ensures NumFilhos(a) == NumFilhos(pai) + 1
    ensures forall i :: 0 <= i < NumFilhos(pai) ==> a.children[i] == pai.children[i]
    ensures a.children[NumFilhos(pai)] == filho
  {
    pai.(children := pai.children + [filho])
  }

  /** Appends the given children one by one, left to right. */
  function AdicionaTodos(pai: Node, filhos: seq<Node>): Node
    decreases |filhos|
  {
    if filhos == [] then pai
    else AdicionaTodos(AdicionaFilho(pai, filhos[0]), filhos[1..])
  }

  /** Appending children one at a time (the parser's list-building style)
      builds the same node as creating it with all children at once. */
  lemma {:induction false} AdicionaTodosAcrescenta(pai: Node, filhos: seq<Node>)
    ensures AdicionaTodos(pai, filhos) == pai.(children := pai.children + filhos)
    decreases |filhos|
  {
    if filhos != [] {
      AdicionaTodosAcrescenta(AdicionaFilho(pai, filhos[0]), filhos[1..]);
      assert pai.children + [filhos[0]] + filhos[1..] == pai.children + filhos;
    }
  }

  lemma CriaComFilhosPorAdicao(kind: Kind, text: Option<string>, linha: int, args: seq<Node>)
    ensures CriaComFilhos(kind, text, linha, |args|, args) == AdicionaTodos(Cria(kind, text, linha), args)
  {
    AdicionaTodosAcrescenta(Cria(kind, text, linha), args);
  }

  /** `n` is `a` or lies somewhere below it. */
  predicate Contem(a: Node, n: Node)
    decreases a
  {
    a == n || exists i :: 0 <= i < |a.children| && Contem(a.children[i], n)
  }
}
