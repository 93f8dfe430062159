# Goianinha compiler: analyser and MIPS generator, modelled in Dafny

This project models the middle and back end of the Goianinha-to-MIPS
compiler. Its input is a finished syntax tree. It models the following:

- **The syntax tree** (`Ast`). A node has a kind from a closed enumeration
  of 25 kinds, optional text, a source line and an ordered sequence of
  children. It is built by the pure counterparts of `ast_cria`,
  `ast_cria_com_filhos` and `ast_adiciona_filho`.
- **Tree shapes** (`Formas`). The parser's semantic actions fix a shape for
  each construct, and these predicates state those shapes:
  - an if-else is an `AST_SENAO` node that wraps the whole `AST_SE`;
  - a function declaration is `[type, AST_FUNCAO[params, block]]`;
  - `programa` is a `DECL_FUNCAO` with a single block child.
- **The scoped symbol table** (`TabelaSimbolos`):
  - the table is a `seq<seq<Simbolo>>` with the innermost scope last, and
    each scope lists its newest symbol first;
  - push fails beyond 64 scopes, and pop of an empty stack does nothing;
  - the three inserts prepend to the innermost scope;
  - lookup goes from the innermost scope outward.
- **The semantic analyser** (`Semantico`). Each `erro_semantico`, which
  ends the process in the source, becomes a `Falha` value. The value
  carries the diagnostic kind and the line. A scope-stack overflow becomes
  `EscoposEsgotados`. The `An*` predicates require, for the whole tree,
  every child and text the C code may dereference on some path. A tree the
  parser builds always satisfies them (`WfProgramaAn`).
- **The code generator** (`Literais`, `Frame`, `Codigo`, `Gerador`). The
  generator's globals become explicit state:
  - a 10-slot temporary stack;
  - the local-label counter;
  - the string-literal pool;
  - the frame map.

  Generated code is a sequence of abstract MIPS instructions (`Mips`).
  Labels are an abstract datatype whose text rendering is proved injective
  (`Rotulos`). Each `exit(1)` of the generator becomes a `FalhaGen` value:
  - temporaries exhausted;
  - a malformed function declaration.
- **Local-label discipline** (`RotulosLocais`, `CodigoRotulos`), over the
  local labels `L<n>` and the `beq` and `j` instructions that target them:
  - each statement defines exactly the local labels it draws, each once;
  - its `beq` and `j` target only those labels or its function's exit label;
  - a whole program defines no local label twice, and every `beq` or `j`
    targets a local label it defines (`Gerador.ProgramaRotulosOk`).
  The `jal` of a call and the function labels `main` and `user_<f>` are
  outside this discipline (see "Left out").

Register demand (`Codigo.Demanda`, `Codigo.DemandaCmd`) and label count
(`Codigo.NumRotulos`) are defined independently of the generator. The
generator's contracts tie its behaviour to them:
- an expression or statement generates successfully exactly when the live
  temporaries plus its demand fit in ten;
- it then leaves the live count as the source promises;
- it draws exactly its label count.

Quirks of the source are modelled as written:
- The string pool is prepended, so the data section lists the newest literal
  first.
- Locals get negative offsets (−8, −12, …), although the prologue reserves
  `[0, frame_size)` above the new `$fp`.
- Only the outermost block's locals enter the frame map. Any other name,
  such as a nested block's local, is addressed as the global `var_<name>`.
- `escreva` picks its syscall from the argument's node kind, not its type.
- Call arguments are typed, but their types are never compared with the
  parameters.

Three behaviours of the code are easy to misread, and the model keeps them
as the code has them:
- **Shadowing.** A scoped symbol table suggests that a local may shadow an
  outer variable. It cannot. The code (`compilador/semantico.c:257-258`)
  rejects a local whenever any visible symbol of that name is not a
  function, so locals cannot shadow variables or parameters
  (`SemanticoProps.LocalNaoSombreiaVariavel`).
- **The temporary cursor.** `topo_temp` (`compilador/codigo.c:94`) is
  never reset between functions. Every function leaves it where it found
  it, so the model threads it through unchanged (`Codigo.GeraFuncoes`).
- **Calls as statements.** A call used as a statement is not checked by
  `verifica_comando` (its `default` branch), so an undeclared function
  called this way passes analysis
  (`SemanticoProps.ChamadaComoComandoNaoVerificada`).

## Model

| member | source | states |
|---|---|---|
| Ast.KindEnumeration | compilador/ast.h:9-44 | The node kinds are exactly the 25 listed ones: enumeration values 0..24 and kinds are in one-to-one correspondence. |
| Ast.Ordinal | compilador/ast.h:9-44 | Each kind's enumeration value is below 25 and is the kind's position in the listing, from `AST_PROGRAMA` = 0 to `AST_PARAM` = 24. |
| Ast.Cria | compilador/ast.c:7-15 | A new node has the given kind, text (or none) and line, and no children. |
| Ast.CriaComFilhos | compilador/ast.c:18-30 | With n > 0 the node has exactly n children, the arguments in order; with n ≤ 0 it is childless; kind, text and line are as given. |
| Ast.AdicionaFilho | compilador/ast.c:33-36 | Appending puts the child last, grows the count by one, keeps every earlier child, and leaves kind, text and line untouched. |
| Ast.AdicionaTodosAcrescenta | compilador/ast.c:33-36 | Appending children one by one gives the node whose children are the old ones followed by the new ones in order. |
| Ast.CriaComFilhosPorAdicao | compilador/ast.c:18-36 | Creating a node with n children builds the same node as creating it bare and appending the n children in turn. |
| Formas.MkSenao | compilador/goianinha.tab.c:1718-1719 | An if-else node has two children: the whole if node (condition and then-branch) and the else branch. |
| Formas.MkSenaoWf | compilador/goianinha.tab.c:1718-1719 | The if-else action on well-formed parts gives a well-formed statement whose first child is an `AST_SE`. |
| Formas.MkDeclFuncao | compilador/goianinha.tab.c:1576-1578 | A function declaration carries the function's name and has exactly the children `[type, body]`, in that order. |
| Formas.MkDeclFuncaoWf | compilador/goianinha.tab.c:1576-1589 | The declaration actions give the shape `[type, AST_FUNCAO[params, block]]` the analyser and generator read. |
| Formas.MkProgramaWf | compilador/goianinha.tab.c:1979 | The root built from a declaration list and the `programa` action, a `DECL_FUNCAO` named `programa` with one block child, is a well-formed program. |
| Rotulos.Decimal | compilador/codigo.c:46-48 | The `%d` rendering of a label number is a non-empty digit string, one digit long exactly for numbers below 10. |
| Rotulos.DecimalIdaEVolta | compilador/codigo.c:46-48 | Reading a rendered number back gives the number. |
| Rotulos.DecimalInjetivo | compilador/codigo.c:46-48 | Different numbers render as different texts, so `L<n>` and `str<n>` never collide across numbers. |
| Rotulos.Texto | compilador/codigo.c:46-62 | Every label text is non-empty and starts with its family's letter: `L`, `m`, `p`, `u`, `v`, `s` or `n`. |
| Rotulos.TextoInjetivo | compilador/codigo.c:46-62 | Distinct labels of any family (`L<n>`, `str<n>`, `main`, `user_<f>`, `var_<x>`, `nl`, `programa`) have distinct texts. |
| Rotulos.RotuloFuncao | compilador/codigo.c:51-57 | A function's label is `main` exactly when the name is `programa`, and `user_<name>` otherwise. |
| Rotulos.RotuloFuncaoInjetivo | compilador/codigo.c:51-57 | Different function names get different labels. |
| TabelaSimbolos.NovoEscopo | compilador/tabela_simbolos.c:16-19 | Push fails exactly when 64 scopes are open; otherwise it adds one empty innermost scope and keeps every other scope. |
| TabelaSimbolos.RemoverEscopo | compilador/tabela_simbolos.c:21-26 | Pop discards exactly the innermost scope, and does nothing on an empty stack. |
| TabelaSimbolos.Cria | compilador/tabela_simbolos.c:28-35 | Insertion puts the symbol at the head of the innermost scope; every outer scope is unchanged. |
| TabelaSimbolos.InserirVariavel | compilador/tabela_simbolos.c:37-40 | After the insert, the name finds a variable with the given type and position, parameter count −1 and no owning function. |
| TabelaSimbolos.InserirFuncao | compilador/tabela_simbolos.c:42-46 | The new entry is a function with position −1 and the given parameter count; it is returned, and the name finds it. |
| TabelaSimbolos.InserirParametro | compilador/tabela_simbolos.c:48-51 | After the insert, the name finds a parameter with the given ordinal and owning function. |
| TabelaSimbolos.BuscarEscopo | compilador/tabela_simbolos.c:55-56 | Within one scope, lookup returns the newest symbol of the name, or nothing exactly when no symbol has it. |
| TabelaSimbolos.Buscar | compilador/tabela_simbolos.c:53-58 | Lookup returns the first match from the innermost scope outward, newest first in each scope; it is none exactly when no scope holds the name. |
| TabelaSimbolos.BuscarAposCria | compilador/tabela_simbolos.c:28-58 | A just-inserted symbol shadows all others of its name, and every other name is found exactly as before. |
| TabelaSimbolos.BuscarAposNovoEscopo | compilador/tabela_simbolos.c:16-19 | Pushing an empty scope changes no lookup. |
| TabelaSimbolos.CriaTodos | compilador/tabela_simbolos.c:28-35 | Any sequence of inserts keeps the number of scopes and every scope but the innermost. |
| TabelaSimbolos.EscopoIdaEVolta | compilador/tabela_simbolos.c:16-26 | Push, any inserts, then pop gives back the same table, so every lookup answers as before the push. |
| Semantico.TipoDoNo | compilador/semantico.c:25-34 | A type node means `car` exactly when it is an `AST_CAR` node, and `int` otherwise. |
| Semantico.VerificaExpr | compilador/semantico.c:68-168 | Typing an expression fails only with a line-carrying diagnostic; an integer literal types as `int`, a character literal as `car`, and an operator node that types always types as `int`. |
| Semantico.VerificaOp | compilador/semantico.c:101-134 | Every operator, whether arithmetic, relational, logical or unary, yields `int` when accepted; its failures are diagnostics. |
| Semantico.VerificaBinario | compilador/semantico.c:54-66 | An accepted binary operator has the expected type; failures are diagnostics. |
| Semantico.VerificaChamada | compilador/semantico.c:136-161 | A call fails only with a diagnostic. |
| Semantico.VerificaArgs | compilador/semantico.c:150-159 | Checking the arguments fails only with a diagnostic. |
| Semantico.VerificaComando | compilador/semantico.c:174-239 | A statement that passes leaves the scope stack exactly as it found it. |
| Semantico.VerificaLista | compilador/semantico.c:230-233 | A statement list that passes leaves the scope stack as it found it. |
| Semantico.PercorreBloco | compilador/semantico.c:264-275 | A block that passes leaves the stack as it found it (push and pop balance); with 64 scopes open it fails with the overflow. |
| Semantico.NovoEscopoOuFalha | compilador/tabela_simbolos.c:16-19 | Entering a scope fails exactly on overflow, and otherwise adds one empty innermost scope. |
| Semantico.DeclaraLocal | compilador/semantico.c:247-260 | A local is rejected exactly when it is unnamed, or when the visible symbol of its name is not a function; otherwise only the innermost scope changes and the name now finds the new variable. |
| Semantico.DeclaraVariaveis | compilador/semantico.c:241-262 | Declaring a block's locals changes only the innermost scope. |
| Semantico.DeclaraParametro | compilador/semantico.c:303-310 | A parameter is rejected exactly when its name is visible in any scope; otherwise the name finds a parameter with its ordinal and owning function. |
| Semantico.DeclaraParametros | compilador/semantico.c:299-311 | Declaring the parameters changes only the innermost scope. |
| Semantico.VerificaFuncao | compilador/semantico.c:281-318 | A function whose name is visible is rejected as duplicate; one that passes leaves the table as it was plus its own symbol, whose parameter count is its list's length, in the enclosing scope. |
| Semantico.DeclaraGlobal | compilador/semantico.c:335-344 | A global variable is rejected exactly when it is unnamed (`VariavelGlobalSemNome`) or its name is already visible (`VariavelDuplicada`, at its line); otherwise only the global scope changes and the name finds the new variable with its declared type. |
| Semantico.DeclaraItem | compilador/semantico.c:334-348 | A top-level item changes only the global scope; an accepted variable is named; an accepted variable or function was not visible before and is visible after. |
| Semantico.DeclaraGlobais | compilador/semantico.c:331-349 | The top-level items change only the global scope. |
| Semantico.GlobaisVisiveis | compilador/semantico.c:331-349 | When the declarations pass, every variable among them is named, every name visible before stays visible, and each declared name was not visible when its item was reached. |
| Semantico.GlobaisDistintos | compilador/semantico.c:331-349 | When the declarations pass, no two top-level variables or functions share a name. |
| Semantico.ProgramaGlobaisDistintos | compilador/semantico.c:320-349 | A program that passes analysis has a name on every global variable and no two globals, variables or functions, with the same name. |
| Semantico.VerificaPrograma | compilador/semantico.c:320-356 | A program that passes leaves the scope stack as it found it; with the stack full it fails with the overflow. |
| Semantico.AnaliseSemantica | compilador/semantico.c:362-368 | Analysis starts from an empty table; it succeeds exactly when the program passes, reports the program's own diagnostic otherwise, and an accepted program has distinct global names. |
| SemanticoProps.OperadorExigeIntIff | compilador/semantico.c:54-66 | `+ - * /`, `e` and `ou` are accepted exactly when both operands type as `int`, giving `int`; different operand types are reported as incompatible, and two `car` operands as needing `int`. |
| SemanticoProps.RelacionalMesmoTipoIff | compilador/semantico.c:109-119 | A relational operator is accepted exactly when both operands have the same type, `int` or `car`, and gives `int`. |
| SemanticoProps.UnarioExigeIntIff | compilador/semantico.c:126-132 | `uminus` and `!` are accepted exactly when the operand is `int`, and give `int`. |
| SemanticoProps.AtribuicaoMesmoTipoIff | compilador/semantico.c:88-99 | An assignment is accepted exactly when both sides have the same type, and gives the variable's type. |
| SemanticoProps.IdentificadorIff | compilador/semantico.c:80-86 | An identifier takes its symbol's type; an undeclared one fails at its own line. |
| SemanticoProps.VerificaArgsSucesso | compilador/semantico.c:150-159 | The argument walk succeeds exactly when every remaining argument types. |
| SemanticoProps.ChamadaIff | compilador/semantico.c:136-161 | A call is accepted exactly when the name is a function, the argument count equals its parameter count and every argument types (types never compared with the parameters); it gives the return type, with the two error kinds in the two failing cases. |
| SemanticoProps.AgrupadorUltimoFilho | compilador/semantico.c:163-167 | Any other node types as its last child, or as `int` when childless. |
| SemanticoProps.IdNaoDeclaradoLocalizado | compilador/semantico.c:80-86 | An undeclared-identifier failure reports the line of an identifier inside the expression whose name nothing visible declares. |
| SemanticoProps.ExprSoDependeDaBusca | compilador/semantico.c:68-168 | Two tables that answer every lookup alike type every expression alike. |
| SemanticoProps.RetorneExigeTipoIff | compilador/semantico.c:196-202 | `retorne` is accepted exactly when its expression has the current function's return type, and otherwise fails at its line. |
| SemanticoProps.ChamadaComoComandoNaoVerificada | compilador/semantico.c:235-237 | A call used as a statement passes unchecked and leaves the table as it was. |
| SemanticoProps.LocalNaoSombreiaVariavel | compilador/semantico.c:257-258 | A block whose first local names a visible variable or parameter is rejected at that declaration's line. |
| SemanticoProps.WfProgramaAn | compilador/semantico.c:320-356 | Every program of the parser's shape has every child and text the analyser dereferences. |
| Codigo.Talloc | compilador/codigo.c:96-102 | Allocation fails exactly when 10 temporaries are live; otherwise it returns `$t<k>`, where k is the live count, and increments the count. |
| Codigo.Tfree | compilador/codigo.c:103 | Release decrements the live count but never below 0, and leaves the label counter alone. |
| Codigo.TallocTfree | compilador/codigo.c:96-103 | A successful allocation followed by a release restores the state; a release with nothing live changes nothing. |
| Codigo.NovoRotulo | compilador/codigo.c:46-48 | A fresh label is `L<n>` for the current counter n, and the counter grows by one. |
| Codigo.NovoRotuloUnico | compilador/codigo.c:46-48 | The labels drawn one after another are `L<n>`, `L<n+1>`, … in order: no two of them are equal, and none equals a label drawn from any later state. |
| Codigo.Salva | compilador/codigo.c:236-242 | Before a call with n live temporaries: nothing when n = 0, else `$sp` lowered by 4n and `$t<i>` stored at `4i($sp)` for every i < n. |
| Codigo.Restaura | compilador/codigo.c:257-263 | After the call: `$t<i>` reloaded from `4i($sp)` for every i < n, then `$sp` raised by 4n. |
| Codigo.SalvaRestaura | compilador/codigo.c:235-263 | A call spills exactly the live temporaries, restores exactly those, each from the slot it was saved to, and leaves `$sp` where it was. |
| Codigo.CodigoCar | compilador/codigo.c:172-176 | A character literal loads a non-negative code, and 0 when its text is a single character. |
| Codigo.InstrUnario | compilador/codigo.c:209-214 | `uminus` and `!` give one instruction writing the operand's register from itself and `$zero`; any other unary operator emits nothing. |
| Codigo.InstrBinario | compilador/codigo.c:215-227 | An unknown operator emits nothing; `/` alone emits two instructions (`div`, `mflo`); every instruction is `div a, b`, `mflo a`, or an ALU instruction writing the left register from the left and right registers; a relational operator emits a set-on-compare. |
| Codigo.GeraExpr | compilador/codigo.c:164-230 | An expression generates exactly when its register demand fits in the free temporaries, otherwise it runs out of them; on success one more temporary is live, the value is in `$t<k>` for the entry count k, and no label is drawn. |
| Codigo.GeraFolha | compilador/codigo.c:167-194 | A literal or identifier takes one fresh temporary, with one load instruction. |
| Codigo.GeraOp | compilador/codigo.c:208-230 | An operator generates exactly when its demand fits, and its value ends in `$t<k>` for the entry count k, with exactly one more temporary live and no label drawn. |
| Codigo.GeraUnario | compilador/codigo.c:209-214 | A unary operator needs what its operand needs; its result is in the entry `$t<k>`, with the count one higher. |
| Codigo.GeraBinario | compilador/codigo.c:215-229 | A binary operator generates exactly when its two-operand demand fits; the result is in the entry `$t<k>`, so the right operand's register is released and only one more temporary stays live. |
| Codigo.GeraChamada | compilador/codigo.c:231-269 | A call succeeds exactly when its arguments' demand fits; its result is in the entry `$t<k>` with exactly one more temporary live, and its code has no local label. |
| Codigo.ChamadaEmiteJal | compilador/codigo.c:231-254 | A call whose arguments fit always generates, and its code contains `jal` to its function's label, whatever functions the program declares. |
| Codigo.ChamadaSemRotulos | compilador/codigo.c:231-269 | The code of a call neither defines nor jumps to a local label. |
| Codigo.GeraArgsDe | compilador/codigo.c:232-249 | A call's argument code is net-zero in temporaries and succeeds exactly when its demand fits. |
| Codigo.GeraArgs | compilador/codigo.c:245-249 | Each argument is net-zero in temporaries, and the list generates exactly when the demand of its first four arguments fits. |
| Codigo.SoQuatroArgumentos | compilador/codigo.c:245-249 | At most four arguments are passed: argument lists that agree on their first four give the same code. |
| Codigo.GeraComando | compilador/codigo.c:275-372 | Every statement leaves the live-temporary count unchanged, draws exactly its label count, and generates exactly when its demand fits. |
| Codigo.GeraSimples | compilador/codigo.c:281-326 | Assignment, call, read, write, newline and return keep the live count and draw no local label; all but `retorne` neither define nor target a local label (a call's `jal` targets a function label, not a local one). |
| Codigo.EscritaPeloNo | compilador/codigo.c:301-315 | `escreva` ends with a syscall whose number is 4 exactly for a string-literal node, 11 exactly for a character-literal node, and 1 for anything else, including `car` variables. |
| Codigo.GeraSe | compilador/codigo.c:327-335 | An if consumes exactly one label plus its body's, and keeps the live count. |
| Codigo.GeraCorpoSe | compilador/codigo.c:329-334 | After the condition, the if releases its temporary and the body generates exactly when it fits in what is left. |
| Codigo.GeraSenao | compilador/codigo.c:336-351 | An if-else consumes exactly two labels plus its branches', and keeps the live count. |
| Codigo.GeraRamos | compilador/codigo.c:341-349 | After the condition, both branches are generated with the condition's temporary released, and succeed exactly when the larger demand fits. |
| Codigo.GeraSenaoFim | compilador/codigo.c:346-350 | The else branch starts from the then branch's state and succeeds exactly when it fits. |
| Codigo.GeraEnquanto | compilador/codigo.c:352-364 | A while consumes exactly two labels plus its body's, and keeps the live count. |
| Codigo.GeraCorpoEnquanto | compilador/codigo.c:357-363 | After the condition, the body runs with its temporary released, and succeeds exactly when it fits. |
| Codigo.GeraLista | compilador/codigo.c:278-280 | A statement list keeps the live count, draws the sum of its statements' labels, and succeeds exactly when its largest demand fits. |
| Codigo.BlocoDe | compilador/codigo.c:378-383 | In either accepted declaration shape, the function's block is a well-formed block. |
| Codigo.NomesParams | compilador/codigo.c:394 | A declaration has as many parameter names as its parameter list has entries, and `programa` has none. |
| Codigo.GuardaArgs | compilador/codigo.c:408-417 | The prologue stores `$a<i>` at `8+4i($fp)` for exactly the first min(n, 4) parameters. |
| Codigo.MolduraEquilibrada | compilador/codigo.c:399-436 | The epilogue raises `$sp` by exactly the bytes the prologue lowered it by, and reloads `$ra` from `0($sp)` and `$fp` from `4($sp)`, the slots the prologue stored them to, and no other register. |
| Codigo.PrologoEquilibrado | compilador/codigo.c:399-417 | The prologue lowers `$sp` by exactly the frame size, stores `$ra` at `0($sp)` and `$fp` at `4($sp)`, and saves no other register on the stack. |
| Codigo.PrologoPartes | compilador/codigo.c:399-417 | Section directives and labels before the frame setup, and argument stores to `$fp` slots after it, leave the setup's effect intact: `$sp` is lowered by the frame size once, and exactly `$ra` at `0($sp)` and `$fp` at `4($sp)` are stored on the stack. |
| Codigo.EpilogoPartes | compilador/codigo.c:431-436 | The epilogue is five instructions: it starts by defining the function's exit label, raises `$sp` by the frame size, reloads exactly `$ra` and `$fp` from their slots, and ends by jumping to `$ra`. |
| Codigo.TamanhoDoQuadro | compilador/codigo.c:394-397 | The frame size is 8 plus 4 per parameter plus 4 per outermost local, and every parameter slot lies inside the frame. |
| Codigo.ForaDoQuadroGlobal | compilador/codigo.c:419-427 | A name that is neither a parameter nor an outermost local, such as a nested block's local, is addressed as the global `var_<name>`. |
| Codigo.GeraFuncao | compilador/codigo.c:374-387 | A declaration of neither shape stops generation as malformed; otherwise the function succeeds exactly when its body fits, draws one exit label plus its body's labels, and keeps the live count. |
| Codigo.GeraDeclarada | compilador/codigo.c:389-437 | A well-shaped function succeeds exactly when its body fits, draws its exit label plus its body's labels, and keeps the live count. |
| Codigo.GeraFuncoes | compilador/codigo.c:456-463 | Generating the declared functions in order keeps the live count, and the label counter never goes back. |
| Frame.FrameAdd | compilador/codigo.c:75-82 | An addition appends one entry when fewer than 64 are held; a full map is returned unchanged. |
| Frame.FrameGet | compilador/codigo.c:85-89 | Lookup gives the offset of the first entry of the name in insertion order, or `INT_MAX` when there is none. |
| Frame.FrameAddGet | compilador/codigo.c:75-89 | Adding never changes the answer for a name already present, and a full map ignores the addition. |
| Frame.Localiza | compilador/codigo.c:183-193 | A name without a frame entry is addressed as `var_<name>`, and a name with one as its `$fp` offset. |
| Frame.ForaDoLayout | compilador/codigo.c:407-427 | A name that is neither a parameter nor a local gets no frame entry, so it is addressed by its global label. |
| Frame.AdicionaVagasTrunca | compilador/codigo.c:75-82 | Adding a batch keeps the entries up to the 64th and drops the rest. |
| Frame.VagasParametros | compilador/codigo.c:408-417 | Parameter i is given offset 8 + 4i. |
| Frame.VagasLocais | compilador/codigo.c:419-427 | Local j is given offset −8 − 4j. |
| Frame.TamanhoFrame | compilador/codigo.c:394-397 | The frame size is at least two words and a whole number of words. |
| Frame.LayoutConteudo | compilador/codigo.c:407-427 | The frame map holds the parameter entries and then the local entries, in order, cut at 64. |
| Frame.ParametroNoQuadro | compilador/codigo.c:408-417 | A parameter not named by an earlier parameter is found at 8 + 4i, inside the reserved frame. |
| Frame.LocalForaDoQuadro | compilador/codigo.c:419-427 | A local not named by a parameter or an earlier local is found at −8 − 4j, a negative offset below the frame the prologue reserved. |
| Frame.ExcessoIgnorado | compilador/codigo.c:75-89 | A name whose only entries lie past the 64th is not found, and falls back to its global label. |
| Literais.Obter | compilador/codigo.c:156-161 | Lookup in the pool gives the label of the first entry with the text, or none exactly when the text was never pooled. |
| Literais.Adiciona | compilador/codigo.c:110-119 | Adding a pooled text changes nothing; a new text goes at the head with label `str<counter>`, and the counter grows. |
| Literais.AdicionaPreserva | compilador/codigo.c:110-119 | A pool stays well formed: one entry per label number, numbers descending from the head, texts distinct. |
| Literais.AdicionaIdempotente | compilador/codigo.c:110-113 | Adding the same text twice is the same as adding it once. |
| Literais.ObterAposAdiciona | compilador/codigo.c:110-119 | After adding, the new text has label `str<counter>`, and every other text keeps its label or its absence. |
| Literais.RotulosDistintos | compilador/codigo.c:116 | In a well-formed pool, distinct texts never share a label. |
| Literais.MaisNovoPrimeiro | compilador/codigo.c:117-118 | Of two new texts added in turn, the later heads the pool. |
| Literais.Coleta | compilador/codigo.c:121-129 | The collection pass keeps the pool well formed and never changes the label of a text already pooled. |
| Literais.ColetaFilhos | compilador/codigo.c:126-128 | The walk over the children keeps the pool well formed and existing labels fixed. |
| Literais.ColetaEncontra | compilador/codigo.c:121-129 | After the pass, lookup finds a label for every string literal in the tree. |
| Literais.DadosStrings | compilador/codigo.c:139-141 | One `.asciiz` line per pooled literal, in pool order, with its label and text. |
| Literais.DadosGlobais | compilador/codigo.c:143-153 | One `.word` per global variable, labelled `var_<name>`, in declaration order; functions are skipped. |
| Literais.SecaoDados | compilador/codigo.c:135-154 | The data section opens with `.data` and the newline string; a childless root adds only the pooled literals. |
| Literais.DadosNovosPrimeiro | compilador/codigo.c:139-141 | The literal lines carry `str<c-1>`, `str<c-2>`, …: newest first; the globals follow them. |
| CodigoRotulos.RotulosComando | compilador/codigo.c:275-372 | A statement defines each local label it draws exactly once and no other, and its `beq` and `j` target only local labels it defines or the exit label. |
| CodigoRotulos.RotulosSimples | compilador/codigo.c:281-326 | Simple statements define no local label, and their only `beq` or `j` is at most a `j` to the exit label. |
| CodigoRotulos.RotulosRetorne | compilador/codigo.c:321-326 | `retorne` defines no local label, and its only `beq` or `j` is the jump to the function's exit label. |
| CodigoRotulos.RotulosCorpoSe | compilador/codigo.c:327-335 | The if's end label is defined once, after the body, and its branch targets it. |
| CodigoRotulos.RotulosRamos | compilador/codigo.c:336-351 | The if-else defines its else and end labels and its branches' labels, each once. |
| CodigoRotulos.RotulosSenaoFim | compilador/codigo.c:343-350 | The jump over the else branch and the branch to it land on labels the if-else defines. |
| CodigoRotulos.RotulosCorpoEnquanto | compilador/codigo.c:352-364 | The while's head and exit labels are defined once each, and the back jump and the exit branch target them. |
| CodigoRotulos.RotulosLista | compilador/codigo.c:278-280 | A statement list defines its statements' labels, each once. |
| CodigoRotulos.PrologoSemRotulos | compilador/codigo.c:399-417 | Prologue and epilogue neither define nor target a local label. |
| CodigoRotulos.RotulosFuncao | compilador/codigo.c:389-437 | A function defines its one exit label and its body's local labels, each once, and every `beq` or `j` in it, every `retorne` included, targets a local label it defines. |
| CodigoRotulos.RotulosFuncoes | compilador/codigo.c:456-463 | The declared functions together define each of their labels once and are closed. |
| Gerador.GeraGlobais | compilador/codigo.c:456-463 | The declared functions end with no temporary live; a childless root gives no code. |
| Gerador.GeraEntrada | compilador/codigo.c:464-466 | The entry point keeps the live count; a root without a second child gives no code. |
| Gerador.GerarCodigo | compilador/codigo.c:442-477 | A generated program starts with `.data` and the newline string, and contains `.text`. |
| Gerador.ProgramaRotulosOk | compilador/codigo.c:442-466 | In a generated program no local label `L<n>` is defined twice, and every `beq` or `j` targets a local label it defines; `jal` targets are not covered. |
| Gerador.GeraFuncoesSucesso | compilador/codigo.c:456-463 | The function list generates exactly when every function's body fits in the temporaries, and otherwise runs out of them. |
| Gerador.WfProgramaGeravel | compilador/codigo.c:374-387 | Every declared function of a parser-built program has the function shape and `programa` the entry shape, so neither is malformed. |
| Gerador.GerarCodigoSucesso | compilador/codigo.c:442-466 | For a parser-built program, generation fails only by running out of temporaries, and does so exactly when some body needs more than ten. |
| Gerador.EntradaSucesso | compilador/codigo.c:464-466 | The entry point of a parser-built program succeeds exactly when its block fits. |
| Gerador.WfProgramaTexto | compilador/goianinha.tab.c:1697-1698 | Every string literal of a parser-built program carries its text, so the collection pass can pool it. |

## Left out

- `compilador/goianinha.tab.c`: the parser tables and driver are not part of this model. Only its semantic actions are modelled, as the `Formas` shape predicates and builders.
- `compilador/main.c` is not part of this model. It handles command-line arguments, opens the files and sets exit codes. There is no end-to-end pipeline member.
- File output: `emit`, `fopen`, `fclose` and `perror`. Output is an instruction sequence, and the `#` comment lines the generator writes are not represented.
- `ast_imprime` and `ast_libera`, and the loop that frees the string list: debug printing and manual memory management.
- `exit(1)` is modelled as a `Failure` value; the message text written to `stderr` is not modelled.
- MIPS runtime semantics: there is no register file, memory or syscall meaning. The model covers the generator's bookkeeping, not what the emitted code computes.
- Fixed-size C buffers: `snprintf` truncation of label names is not modelled, so label names are never cut.
- `gerar_codigo_mips` with a null root, and null children in general: the model's trees have no null nodes.
- Semantico.VerificaExpr, Semantico.VerificaFuncao, Semantico.VerificaPrograma: their `An*` requires are a static over-approximation of what the C reads. The C reads a call's arguments only after the lookup and the count check pass (`compilador/semantico.c:138-150`). It reads a function's parameters and body only once the function is not a duplicate (`compilador/semantico.c:288-291`). It reads later items only if no earlier item failed. The model asks for all of them on every tree, so trees that are malformed only past the C's first error are outside the model. The parser never builds such trees.
- `gera_expr` returning `NULL` for a node kind it does not handle cannot happen on a parser-built tree, so the model's generator requires a well-formed expression instead.
- Frame.FrameAdd: stores the whole name. In the source, `frame_map_add` keeps only the first 31 characters (`compilador/codigo.c:77-78`), and `frame_map_get_offset` compares that prefix with the full name (`compilador/codigo.c:87`). So a parameter or local whose name has 32 or more characters is never found there, and the source addresses it as the global `var_<name>` (`compilador/codigo.c:186-191`). The model finds such a name at its frame offset.
- Frame.TamanhoFrame: its own contract states only bounds. The exact size, 8 plus 4 per parameter and outermost local, is stated by `Codigo.TamanhoDoQuadro`.
- Codigo.CodigoCar: texts are modelled as sequences of characters, not bytes. The source loads `e->valor[1]`, one byte read as a signed `char`, so a literal whose character is not ASCII loads a different value (a negative byte) from the model's character code.
- Codigo.Prologo, Codigo.Epilogo, Codigo.Retorno: they have no contracts of their own. Their stack adjustment, saved and reloaded registers, exit label and final jump are stated by `Codigo.MolduraEquilibrada`, `Codigo.PrologoPartes` and `Codigo.EpilogoPartes`.
- Semantico.VerificaChamada: its own contract states only that failures are diagnostics; the if-and-only-if is `SemanticoProps.ChamadaIff`.
- Gerador.ProgramaRotulosOk, CodigoRotulos.RotulosFuncao, CodigoRotulos.RotulosComando: the label discipline covers only the local labels `L<n>` and the `beq` and `j` instructions. The `jal` of a call and the labels `main`, `user_<f>` and `var_<x>` are outside it, and nothing proves that a `jal` target is defined. It cannot be proved: a call used as a statement is not checked by the analyser (`compilador/semantico.c:235-237`, `SemanticoProps.ChamadaComoComandoNaoVerificada`), so a program whose statement calls an undeclared `g` passes analysis, and `Codigo.GeraChamada` (`compilador/codigo.c:254`) still emits `jal user_g` (`Codigo.ChamadaEmiteJal`) with no `user_g:` anywhere in the program.
- Gerador.GerarCodigo: its own contract states only the section layout; success and failure are stated by `Gerador.GerarCodigoSucesso`, and the label discipline by `Gerador.ProgramaRotulosOk`.
- Codigo.GeraFuncoes: its own contract states only that temporaries are preserved; its success condition is `Gerador.GeraFuncoesSucesso`.
- The type of a call's result is the function's return type, but argument types are never checked against the parameters. This is modelled as written, not fixed.
