# Calculator evaluation core in Dafny

This project models the evaluation core of a small console calculator. The core has four parts:

- a tokenizer that reads characters and produces tokens;
- a token stream with one pushback slot;
- a symbol table of named values, each either mutable or constant;
- a recursive-descent grammar that evaluates while it parses.

The grammar covers `let` and `const` declarations, `+ - * / %`, unary signs, round and curly brackets, the postfix factorial `!`, `sqrt(...)`, `pow(a, p)`, names, and chained assignment.

Modules:

- `Failures`: the `Option`/`Result` wrappers, and one `Error` per exception message the C++ throws.
- `Tokens`: the token datatype, the kind characters and the keyword spellings.
- `Numeric`:
  - `narrow<int>`;
  - the truncating remainder of C++ `%`;
  - `pow` and `factorial`.
- `SymbolTable`:
  - `Variable` and `set_value`;
  - the table operations `get`, `set`, `is_declared`, `is_prohibited` and `define`;
  - the initial table that holds the constants `pi` and `e`.
- `TokenStream`:
  - reading one token from the input characters;
  - `tolower`, keyword classification, `putback`, `get` and `ignore`.
  - The stream holds the token outcomes of the input in order, and `GetOpen` proves that one `Get` on a freshly opened input is exactly one read at the character level.
- `Grammar`: `statement`, `declaration`, `expression`, `term` and `primary` as mutually recursive functions. Each returns the result, the stream after the call, and the table as it stood when evaluation stopped. The C++ mutates the table in place and rolls nothing back, so a failure carries the table too. Termination follows from the number of pending tokens, which every production that succeeds strictly decreases.
- `Precedence`: an independent reference evaluator on syntax trees, for the fragment with numbers, signs, brackets and `+ - * / %`. Its theorem is that the grammar yields the tree's value on the tree's spelling. This states operator precedence and left-to-right folding.
- `Statements`: the remaining behaviours of the grammar, stated against the symbol table and the numeric helpers:
  - names and assignment;
  - chained assignment;
  - declarations;
  - `sqrt`, `pow` and `!`;
  - the operand-expected check.
- `Examples`: concrete inputs from the grammar's documentation and its error messages, evaluated through the lemmas above.

Where the grammar's doc comment and the code disagree, the model follows the code:

- The doc comment lists `"let const" Name "=" Expression` (grammar.h:17). The code reads `const` as a keyword token, so `let const c = 1;` fails with "name expected" (`Statements.LetConstRejected`). The immutable form the code accepts is `const c = 1;`.
- `define` can fail with "reserved name". The grammar can never reach that error, because `const`, `pow` and `sqrt` always lex as keyword tokens and never as names. `Grammar.Statement` states this.

## Model

| member | source | states |
|---|---|---|
| Tokens.KindIdentifiesClass | token_stream.h:17-25 | the synthetic kind characters never clash with a symbol character, so two tokens of the same kind are the same token, or both are numbers, or both are names |
| Numeric.Narrow | grammar.cpp:16-22 | narrowing to int succeeds exactly when the value is integral, gives back that same value, and otherwise fails with a narrowing error |
| Numeric.NarrowRoundTrip | grammar.cpp:16-22 | every integer survives narrowing unchanged |
| Numeric.TruncRem | grammar.cpp:169 | the remainder of C++ `%`: the dividend equals truncated quotient times divisor plus remainder, the remainder is smaller than the divisor in magnitude, and its sign follows the dividend |
| Numeric.TruncRemExamples | grammar.cpp:169 | `7 % 2` is 1 and `-7 % 2` is -1; a negative divisor does not change the sign |
| Numeric.PowLoopIsPower | grammar.cpp:38-42 | the multiplication loop of `pow` computes the base multiplied by itself p times |
| Numeric.PowerNonzero | grammar.cpp:36-42 | a power of a nonzero base is nonzero |
| Numeric.PowerOfReciprocal | grammar.cpp:36 | the n-th power of 1/a times the n-th power of a is 1 |
| Numeric.Pow | grammar.cpp:24-43 | `pow` fails with divide-by-zero exactly when the base is 0 and the exponent negative; exponent 0 gives 1 for every base, including 0; base 0 with a positive exponent gives 0; a nonnegative exponent gives the repeated product; a negative exponent gives the reciprocal of the power |
| Numeric.ZeroPower | grammar.cpp:32 | 0 to a positive power is 0 |
| Numeric.PowExamples | grammar.cpp:24-43 | `pow(2,10)` is 1024, `pow(2,-2)` is 0.25, `pow(0,0)` is 1, and `pow(0,-1)` fails |
| Numeric.FactPositive | grammar.cpp:50-57 | the product 1..n is at least 1, so the overflow test can never fire over integers |
| Numeric.FactLoopIsProd | grammar.cpp:50-52 | the factorial loop multiplies the accumulator by the product of i..n |
| Numeric.ProdExtend | grammar.cpp:51-52 | one more loop round multiplies the product by n+1 |
| Numeric.ProdIsFact | grammar.cpp:50-52 | the loop from 1 to n computes n! |
| Numeric.Factorial | grammar.cpp:45-58 | `factorial` fails exactly for negative n, with its own error; otherwise it returns n!, which is at least 1 |
| Numeric.FactorialExamples | grammar.cpp:45-58 | 5! is 120, 0! is 1, and -1 fails |
| SymbolTable.NewVariable | grammar.h:73-74 | a variable made without a flag is mutable and holds the given name and value |
| SymbolTable.SetValue | grammar.cpp:370-378 | assigning to a variable fails exactly when it is constant; otherwise the name and mutability stay and the value becomes the new one |
| SymbolTable.Find | grammar.cpp:390-395 | the lookup gives the first entry carrying the name, or none exactly when no entry carries it |
| SymbolTable.FindUnique | grammar.cpp:390-395 | in a table with unique names, the lookup finds the one entry that carries the name |
| SymbolTable.IsDeclared | grammar.cpp:398-404 | a name is declared exactly when some entry carries it |
| SymbolTable.IsProhibited | grammar.h:97 | the reserved names are exactly `const`, `pow` and `sqrt`; `let`, `pi` and `e` are not reserved |
| SymbolTable.Get | grammar.cpp:380-386 | reading fails exactly on an undeclared name; otherwise the value comes from an entry that carries the name |
| SymbolTable.Set | grammar.cpp:388-396 | `set` fails on an undeclared name and on a constant; otherwise only the matching entry's value changes, and every other entry and the length stay as they were |
| SymbolTable.Define | grammar.cpp:413-421 | `define` fails exactly on a declared or reserved name, and a duplicate is reported before a reserved name; on success the new variable is appended |
| SymbolTable.DefinePreservesUnique | grammar.cpp:413-421 | a successful define keeps names unique |
| SymbolTable.SetPreservesUnique | grammar.cpp:388-396 | a successful set keeps names unique |
| SymbolTable.GetAfterSet | grammar.cpp:380-396 | after a successful set, reading the name gives the new value, and reading any other name gives what it gave before |
| SymbolTable.GetAfterDefine | grammar.cpp:413-421 | after a successful define, reading the name gives its value, and every other name reads as before |
| SymbolTable.ConstantsStayConstant | grammar.cpp:370-378 | assigning to a declared constant always fails with the immutable-assignment error |
| SymbolTable.InitialEnv | grammar.cpp:341-342 | the starting table has unique names, `pi` and `e` hold their constants, and neither can be assigned |
| TokenStream.ToLowerChar | token_stream.cpp:11 | an ASCII letter becomes its lower-case form; every other character stays as it is |
| TokenStream.ToLower | token_stream.cpp:7-13 | the result has the input's length and lowercases it position by position |
| TokenStream.ToLowerIdempotent | token_stream.cpp:7-13 | lowercasing twice is the same as lowercasing once |
| TokenStream.WordRun | token_stream.cpp:64-71 | identifier scanning takes the longest prefix of letters, digits and `_`, and the character that stops it is left unread |
| TokenStream.WordRunOfSpelling | token_stream.cpp:64-71 | scanning a spelled word of word characters, followed by a non-word character, reads back exactly that word |
| TokenStream.ClassifyCases | token_stream.cpp:73-91 | `let`, `sqrt`, `pow` and `const` become keywords only when spelled exactly; `quit` and `help` match in any letter case; every other word is a name carrying its spelling; no word becomes a symbol or a number |
| TokenStream.ToLowerOfLower | token_stream.cpp:7-13 | a word without upper-case letters lowercases to itself |
| TokenStream.KeywordsAreLower | token_stream.h:29-34 | the keyword spellings are already lower-case |
| TokenStream.ClassifyExamples | token_stream.cpp:73-91 | `Let` is a name, while `QUIT` and `Help` are the quit and help keywords |
| TokenStream.Blanks | token_stream.cpp:34 | reading a character first skips the longest run of whitespace |
| TokenStream.ReadToken | token_stream.cpp:33-97 | reading one token consumes no more than the input, and consumes at least one item unless the input holds only whitespace |
| TokenStream.ReadEnd | token_stream.cpp:33-34 | reading reports end of input exactly when nothing but whitespace is left |
| TokenStream.ReadBadToken | token_stream.cpp:93-96 | reading fails with `Bad token` exactly when the first non-blank character starts no token (not a symbol, `.`, digit or letter), and then consumes only that character |
| TokenStream.ReadUnlexed | token_stream.cpp:52-61 | reading fails as an unlexed number exactly when the first non-blank character is `.` or a digit, consuming that character |
| TokenStream.ReadBad | token_stream.cpp:93-96 | a character that starts no token is dropped with a `Bad token` error and lexing resumes right after it |
| TokenStream.UnderscoreStartsNoName | token_stream.cpp:64-96 | `_x` lexes as a `Bad token` error for `_` followed by the name `x`: a name must begin with a letter |
| TokenStream.Lex | token_stream.cpp:26-98 | reading token after token gives at most one token per input item, and no end-of-input marker appears before the end |
| TokenStream.Open | token_stream.h:51 | a fresh stream has an empty slot and its tokens are those of the whole input |
| TokenStream.Putback | token_stream.cpp:17-24 | putback fails exactly when the slot is full; otherwise the slot holds exactly the given token and the input is untouched |
| TokenStream.Get | token_stream.cpp:26-31 | after any get the slot is empty; a buffered token is returned unchanged without consuming input; a token read from input is a well-formed token; every read error is one of the reader's own |
| TokenStream.GetOpen | token_stream.cpp:26-98 | getting from a freshly opened input is one character-level read, and the stream continues with the input after the consumed items |
| TokenStream.Unget | token_stream.cpp:17-24 | putting back into an empty slot always succeeds and adds one pending token |
| TokenStream.GetAfterPutback | token_stream.cpp:17-31 | get after a successful putback returns the token put back and restores the stream |
| TokenStream.PutbackAfterGet | token_stream.cpp:26-31 | a putback straight after a get never fails, and a following get returns that token |
| TokenStream.ReadAlpha | token_stream.cpp:64-91 | a token that starts with a letter is the classified word formed by that letter and the following run of word characters |
| TokenStream.ReadWord | token_stream.cpp:64-91 | a spelled identifier is read as the classification of that identifier and consumes exactly its characters |
| TokenStream.ReadName | token_stream.cpp:64-91 | an input whose first letter and word run spell w is read as the classification of w, consuming its length |
| TokenStream.LexWord | token_stream.cpp:64-91 | the token list of a spelled identifier followed by other input is its classification followed by the tokens of the rest |
| TokenStream.ReadSymbol | token_stream.cpp:36-50 | each of `; ( ) { } + - * / ! % = ,` is read as the token of that kind, consuming one character |
| TokenStream.ReadLiteral | token_stream.cpp:52-61 | a number read by the host parser becomes a number token carrying its value |
| TokenStream.SkipPast | token_stream.cpp:106-110 | ignoring input drops every item up to and including the first occurrence of the character, or everything when it does not occur; whitespace is never matched because reading skips it |
| TokenStream.SkipTokens | token_stream.cpp:106-110 | at the token level, ignoring drops every token up to and including the first symbol token of that kind, or all of them |
| TokenStream.Ignore | token_stream.cpp:100-111 | ignore always empties the slot; if the buffered token has the kind, the input is untouched; otherwise the buffered token is dropped and input is skipped past the kind |
| TokenStream.SkipPastDrop | token_stream.cpp:108-110 | a prefix without the character can be skipped before ignoring without changing the outcome |
| TokenStream.ReadTokenConsumes | token_stream.cpp:33-97 | reading one token never passes a symbol character silently: either that symbol is the token read and is its last consumed character, or the consumed items do not contain it |
| TokenStream.WordConsumes | token_stream.cpp:64-71 | an identifier's characters never include a symbol character |
| TokenStream.SymbolsAreNotWordChars | token_stream.cpp:36-50 | symbol characters are neither word characters nor whitespace |
| TokenStream.LexFirst | token_stream.cpp:26-98 | the token list of an input is its first token followed by the token list of what remains |
| TokenStream.LexSkipPast | token_stream.cpp:100-111 | skipping characters past a symbol and then reading tokens gives the same tokens as reading first and skipping tokens past that symbol |
| TokenStream.SkipPastHit | token_stream.cpp:109-110 | when the input starts with the character, ignoring drops only that character |
| TokenStream.IgnoreResynchronises | token_stream.cpp:100-111 | after an error, ignoring up to `;` leaves exactly a fresh stream over the input after the first `;` |
| Grammar.Statement | grammar.cpp:68-84 | a statement adds at most one entry, which is a fresh name holding the statement's value; no other entry changes name or mutability; constants keep their values; unique names stay unique; a success consumes input; the reserved-name and buffer-full errors never occur |
| Grammar.Declaration | grammar.cpp:86-99 | a declaration appends an entry exactly when it succeeds; the entry holds the value, the requested mutability and a name not already in the table |
| Grammar.Declare | grammar.cpp:92-98 | after the name, the `=` check and the expression come before `define`, so the entry is appended exactly on success, with the name, value and mutability given |
| Grammar.Expression | grammar.cpp:101-133 | an expression never changes a name, a mutability or a constant's value; on success it consumes input and leaves in the slot a token that cannot continue the expression |
| Grammar.ExpressionTail | grammar.cpp:108-132 | the `+`/`-` loop keeps the table's shape and stops only on a token that is neither an additive operator nor the start of an operand |
| Grammar.Term | grammar.cpp:135-178 | a term keeps the table's shape and on success leaves a token other than `*`, `/` or `%` in the slot |
| Grammar.TermTail | grammar.cpp:141-177 | the `* / %` loop keeps the table's shape, never overflows the slot, and stops only on a non-multiplicative token |
| Grammar.Primary | grammar.cpp:180-294 | a primary keeps the table's shape, consumes input on success, and never puts back into a full slot |
| Grammar.Bang | grammar.cpp:225-231 | the optional `!` after an operand leaves the table alone and consumes at most the one token it reads |
| Grammar.Bracketed | grammar.cpp:189-219 | a bracketed expression keeps the table's shape and consumes input on success |
| Grammar.NameOrAssignment | grammar.cpp:238-254 | a name or assignment keeps names and mutability, and a constant's value is never changed |
| Grammar.Assign | grammar.cpp:242-246 | assignment evaluates the right side first; on success it returns that value; on failure the error is the right side's, undeclared name, or immutable assignment |
| Grammar.SqrtCall | grammar.cpp:256-267 | `sqrt` keeps the table's shape, consumes input on success, and puts its `(` back without overflowing the slot |
| Grammar.PowCall | grammar.cpp:269-288 | `pow` keeps the table's shape and consumes input on success |
| Grammar.PowTail | grammar.cpp:276-287 | the part of `pow` after the base keeps the table's shape and consumes input on success |
| Precedence.LexFactor | token_stream.cpp:36-61 | the token list of a spelled factor followed by more input is the factor's tokens followed by the rest's tokens |
| Precedence.LexMul | token_stream.cpp:36-61 | the same for a chain of multiplicative steps |
| Precedence.LexOp | token_stream.cpp:36-50 | an operator character before two spelled parts reads as that operator token followed by the parts' tokens |
| Precedence.LexProduct | token_stream.cpp:36-61 | the same for a product |
| Precedence.LexAdd | token_stream.cpp:36-61 | the same for a chain of additive steps |
| Precedence.LexSum | token_stream.cpp:36-61 | the same for a whole expression |
| Precedence.SignStep | grammar.cpp:234-236 | a leading `-` negates its primary's value and a leading `+` keeps it |
| Precedence.GroupStep | grammar.cpp:189-219 | a bracketed expression not followed by `!` is worth the expression inside |
| Precedence.MulStep | grammar.cpp:146-160 | `*` multiplies the accumulator by the next primary; `/` fails when that primary is exactly 0 and otherwise divides by it; then the loop goes on |
| Precedence.RemStep | grammar.cpp:162-172 | `%` narrows the accumulator before evaluating the right primary, then narrows the right, fails on 0, and continues with the truncating remainder |
| Precedence.TermStep | grammar.cpp:140-141 | a term is its first primary followed by the multiplicative loop |
| Precedence.AddStep | grammar.cpp:110-121 | `+` and `-` combine the accumulator with the next term, then the loop goes on |
| Precedence.ExpressionStep | grammar.cpp:106-108 | an expression is its first term followed by the additive loop |
| Precedence.FactorEval | grammar.cpp:180-236 | on a factor's tokens, primary yields the factor's reference value, leaves the table unchanged, and puts back the following token |
| Precedence.MulEval | grammar.cpp:143-177 | the multiplicative loop folds the steps from the left, exactly as the reference fold does |
| Precedence.TimesEval | grammar.cpp:146-149 | a `*` step followed by further steps yields the reference fold |
| Precedence.OverEval | grammar.cpp:151-160 | a `/` step followed by further steps yields the reference fold, including the divide-by-zero error |
| Precedence.RemEval | grammar.cpp:162-172 | a `%` step followed by further steps yields the reference fold, including narrowing and divide-by-zero errors |
| Precedence.ProductEval | grammar.cpp:135-178 | on a product's tokens, term yields the product's reference value |
| Precedence.AddEval | grammar.cpp:108-132 | the additive loop folds from the left, and a success turns into operand-expected when the next token can only start an operand |
| Precedence.PlusEval | grammar.cpp:112-121 | a `+` step followed by further steps yields the reference fold |
| Precedence.MinusEval | grammar.cpp:112-121 | a `-` step followed by further steps yields the reference fold |
| Precedence.SumEval | grammar.cpp:101-178 | on any expression of the fragment, the grammar yields the reference value: `* / %` bind tighter than `+ -`, every chain folds from the left, errors are those of the reference, and a following operand token gives operand-expected |
| Statements.PrimaryReadsOnce | grammar.cpp:185 | primary depends only on what its first get returns |
| Statements.TermReadsOnce | grammar.cpp:140 | term depends only on what its first get returns |
| Statements.ExpressionReadsOnce | grammar.cpp:106 | expression depends only on what its first get returns, so a token put back is read exactly like one from input |
| Statements.StatementIsExpression | grammar.cpp:80-82 | a statement that does not start with `let` or `const` is the expression on the same input |
| Statements.StatementIsDeclaration | grammar.cpp:74-78 | `let` starts a mutable declaration and `const` an immutable one |
| Statements.ExpressionIsPrimary | grammar.cpp:106-131 | when a primary is followed by a token that ends both loops, the expression is worth that primary and the token is put back |
| Statements.TermTailEnds | grammar.cpp:174-176 | a non-multiplicative token ends the term with the accumulated value and is put back |
| Statements.ExpressionTailEnds | grammar.cpp:129-131 | a token that is neither additive nor an operand start ends the expression and is put back |
| Statements.StatementTokens | grammar.cpp:68-84 | on the tokens of an expression of the fragment, a statement yields the reference value |
| Statements.StatementEval | grammar.cpp:68-84 | typing an expression of the fragment followed by `;` evaluates to its reference value, leaves the table as it was, and leaves `;` in the slot |
| Statements.OperandAfterFragment | grammar.cpp:123-126 | a well-formed expression followed directly by a number fails with operand-expected, as in `(1+1)1` |
| Statements.KeepsFind | grammar.cpp:390-395 | evaluation never moves or renames entries, so lookups find the same entry afterwards |
| Statements.KeepsUnique | grammar.cpp:388-396 | evaluation keeps table names unique |
| Statements.NameRead | grammar.cpp:238-253 | a name not followed by `=` reads the table: undeclared fails, otherwise its value, with the next token put back |
| Statements.NameExpression | grammar.cpp:238-253 | a name followed by an ending token is an expression worth the name's value |
| Statements.NameThenOperand | grammar.cpp:123-126 | a name followed by an operand token fails, as undeclared or operand-expected, as in `x y` |
| Statements.AssignStores | grammar.cpp:242-246 | after the right side, an assignment stores its value under an assignable name and changes nothing else; it fails on an undeclared name or a constant with the right side's table kept; a failing right side is passed through |
| Statements.AssignmentReads | grammar.cpp:242-245 | `name = ...` as a primary evaluates the whole right-hand expression and then assigns |
| Statements.AssignmentAsExpression | grammar.cpp:242-245 | `name = rhs` as an expression is the assignment of the right-hand expression |
| Statements.AssignmentExpression | grammar.cpp:242-246 | `x = rhs` evaluates to the right side's value, leaves the same stream, and afterwards x reads that value and every other name reads as the right side left it |
| Statements.DeclarationEval | grammar.cpp:86-99 | the expression is evaluated before define: its error passes through; a declared name gives duplicate-name with the expression's effects kept; otherwise the new variable is appended and reads back the value |
| Statements.DeclarationNeedsName | grammar.cpp:88-90 | a declaration not followed by a name fails with name-expected and leaves the table alone |
| Statements.DeclarationNeedsAssign | grammar.cpp:92-94 | a declared name not followed by `=` fails with `=`-expected |
| Statements.SqrtEval | grammar.cpp:256-267 | `sqrt` checks for `(`, puts it back, and takes the whole following expression as its argument; a negative argument fails |
| Statements.SqrtNeedsBracket | grammar.cpp:258-260 | `sqrt` not followed by `(` fails with `(`-expected |
| Statements.PowNeedsBracket | grammar.cpp:271-273 | `pow` not followed by `(` fails with `(`-expected |
| Statements.PowNeedsComma | grammar.cpp:275-278 | after `pow(` and the base, a token other than `,` fails with `,`-expected, unless the base already failed |
| Statements.PowNeedsClose | grammar.cpp:280-285 | after `pow(a, b`, a token other than `)` fails with `)`-expected, unless a, b or the narrowing of b failed first |
| Statements.PowTailNeedsClose | grammar.cpp:276-285 | the part of `pow` after the base fails with `)`-expected when the exponent is not followed by `)` |
| Statements.PowEval | grammar.cpp:269-288 | `pow(a, b)` evaluates a, then b, narrows b to an int, requires `)`, and gives the power or its error |
| Statements.BracketNeedsCloser | grammar.cpp:189-219 | a `(` or `{` expression followed by anything but its own closer fails with that closer expected, unless the inner expression failed |
| Statements.NoPrimary | grammar.cpp:290-292 | a token that starts no primary fails with `primary expected` and is consumed |
| Statements.PowTailEval | grammar.cpp:276-287 | after the base, `, b )` gives the power of the base, with the exponent narrowed |
| Statements.FactorialOfNaturals | grammar.cpp:45-58 | `!` succeeds exactly on a nonnegative integer and gives its factorial; a fraction fails with a narrowing error and a negative integer with the factorial error |
| Statements.BangEval | grammar.cpp:221-227 | a number followed by `!` is its factorial |
| Statements.BracketBang | grammar.cpp:189-219 | a bracketed expression followed by `!` is the factorial of its value |
| Statements.BangOnce | grammar.cpp:221-232 | a second `!` is not applied: `3!!` gives 3! and leaves the second `!` in the slot |
| Statements.NumberExpression | grammar.cpp:221-232 | a number followed by an ending token is an expression worth that number |
| Statements.SetAll | grammar.cpp:242-246 | assigning a chain of names from the innermost outwards never changes names, mutability or constants |
| Statements.GetAfterSetAll | grammar.cpp:242-246 | after a chain of assignments, every name in the chain reads the assigned value and every other name reads as before |
| Statements.ChainedAssignment | grammar.h:42-43 | `x = y = z = v` evaluates v once, assigns it to every name in the chain, and returns it |
| Statements.ChainedStatement | grammar.h:42-43 | the same chained assignment typed as a statement |
| Statements.KeepsConstant | grammar.cpp:370-378 | evaluation never changes a constant's value |
| Statements.ConstantInChain | grammar.cpp:242-246 | `pi = x = 3` fails with immutable-assignment but keeps the assignments made to its right, so x becomes 3 |
| Statements.ConstantSurvivesChain | grammar.cpp:370-378 | a constant reads the same after any chain of assignments to assignable names |
| Statements.NamesInARow | grammar.cpp:123-126 | two names in a row, the first declared, fail with operand-expected |
| Statements.SelfDeclaration | grammar.cpp:96-97 | `let x = x;` with x undeclared fails with undeclared-name and defines nothing |
| Statements.LetConstRejected | grammar.h:15-17 | `let const ...` fails with name-expected and leaves the table unchanged |
| Statements.ConstantDeclared | grammar.cpp:86-99 | `const c = v;` appends an immutable c holding v, keeps names unique, and c then reads v |
| Statements.ConstantRefusesAssignment | grammar.cpp:242-246 | assigning to a declared constant fails with immutable-assignment and leaves the table unchanged |
| Statements.SqrtOfSum | grammar.cpp:256-267 | `sqrt(v)+w;` takes the square root of v+w, not sqrt(v) plus w |
| Examples.Typed | grammar.cpp:68-84 | convenience form of `StatementEval` with nothing after the `;`: typing an expression of the fragment and `;` gives its reference value |
| Examples.TimesBeforePlus | grammar.cpp:101-178 | `2+3*4;` is 14 |
| Examples.BracketsFirst | grammar.cpp:189-203 | `(2+3)*4;` is 20 |
| Examples.MinusFoldsLeft | grammar.cpp:108-121 | `1-2-3;` is -4 |
| Examples.DivideFoldsLeft | grammar.cpp:143-160 | `8/2/2;` is 2 |
| Examples.DivideByZeroFails | grammar.cpp:151-155 | `1/0;` fails with divide-by-zero |
| Examples.RemainderOfPositive | grammar.cpp:162-172 | `7%2;` is 1 |
| Examples.RemainderOfNegative | grammar.cpp:162-172 | `-7%2;` is -1 |
| Examples.RemainderNarrowsLeftFirst | grammar.cpp:164 | `7.5%0;` fails with the narrowing error, before the zero divisor is seen |
| Examples.RemainderByZero | grammar.cpp:166-167 | `7%0;` fails with divide-by-zero |
| Examples.RemainderNeedsIntegers | grammar.cpp:165 | `7%0.5;` fails with the narrowing error |
| Examples.NumberAfterBracket | grammar.cpp:123-126 | `(1+1)1;` fails with operand-expected |
| Examples.TwoNames | grammar.cpp:123-126 | `x y;` fails with operand-expected |
| Examples.SelfDeclarationExample | grammar.cpp:96-97 | `let x = x;` fails with undeclared-name and defines nothing |
| Examples.LetConstExample | grammar.h:17 | `let const c = 1;` fails with name-expected |
| Examples.ConstantDeclaration | grammar.cpp:370-378 | `const c = 1;` declares c, and a later `c = 2;` fails and leaves c at 1 |
| Examples.SqrtTakesWholeExpression | grammar.cpp:256-267 | `sqrt(4)+1;` is the square root of 5 |
| Examples.SqrtOfNegative | grammar.cpp:264-265 | `sqrt(-4);` fails with the negative-root error |
| Examples.PowOfTwo | grammar.cpp:269-288 | `pow(2,10);` is 1024 |
| Examples.PowNeedsIntegerExponent | grammar.cpp:281 | `pow(2,0.5);` fails with the narrowing error |
| Examples.FactorialOfThree | grammar.cpp:221-227 | `3!;` is 6 |
| Examples.DoubleBang | grammar.cpp:221-232 | `3!!` reads `3!` as 6 and leaves the second `!` unconsumed |
| Examples.NegatedFactorial | grammar.cpp:234 | `-3!` is -6: `!` binds tighter than unary minus |
| Examples.UnclosedBracket | grammar.cpp:189-203 | `(1;` fails with `)` expected |
| Examples.MissingOperand | grammar.cpp:290-292 | a primary cannot start with `*`: `*3` fails with `primary expected` |
| Examples.PowWithoutComma | grammar.cpp:269-278 | `pow(2;` fails with `,` expected |
| Examples.NoBangAfterName | grammar.cpp:238-253 | `!` is not applied after a name |

## Left out

- The read-eval-print loop is not modelled. `calculate`, `greetings`, `get_help` and `main` are console I/O, prompts, help text, exception reporting and exit codes. The `Print`, `Quit` and `Help` statements of the doc comment are handled there, so they are left out too. The model keeps the loop's starting table (`InitialEnv`) and its recovery step (`clean_up_mess` as `Ignore` up to `;`).
- Numeric literals are read by the host's floating-point parser. The input holds them as already-read `Literal` items, and a digit or `.` character at the start of a token gives `UnlexedNumber`, an error that only this model has.
- The values are mathematical reals, not IEEE doubles. Rounding, overflow to infinity and NaN are not modelled.
- The `res < 1` overflow test of `factorial` (grammar.cpp:54) is kept in `Numeric.Factorial`, but over unbounded integers it never fires (`FactPositive` and `Factorial`'s ensures show the result is at least 1); the floating-point overflow it guards against is not modelled.
- Numeric.Narrow: narrowing a value outside the `int` range is undefined behaviour in C++. The model accepts any integral value.
- Numeric.Pow: negating the exponent at `INT_MIN` is not modelled, because the exponent is an unbounded integer.
- Numeric.TruncRem: `INT_MIN % -1` (for example `-2147483648 % -1;`, grammar.cpp:169) is undefined behaviour in C++ and traps on common hardware; the model returns 0.
- Numeric.Factorial: for n = `INT_MAX` (`2147483647!`) the loop counter at grammar.cpp:51 overflows, which is undefined behaviour in C++; the model returns n!.
- The value of `sqrt` is the parameter `root`, because Dafny has no real square root. The model checks where the argument is taken and the negative-argument guard, not the root's value.
- The C++ `get` reads an uninitialised character when input ends. The model returns an `EndOfInput` error instead.
- Character classes are ASCII. Locale-dependent `isalpha` and `tolower` are not modelled.
- TokenStream.LexSkipPast: equates character-level and token-level `ignore` only for symbol characters. For any other character, token-level skipping does not describe `ignore`; the grammar only ever ignores up to `;`.
- Precedence.SumEval: covers the fragment without names, `!`, `sqrt` and `pow`. Those constructs are stated separately in `Statements` (names and assignment, `BangEval`/`BracketBang`, `SqrtEval`, `PowEval`).
- Statements.SetAll: does not raise an error for a constant in the chain; it skips that name. `ConstantInChain` states the error that the grammar returns in that case.
- Statements.ChainedAssignment: requires every name in the chain to be assignable and the right side to succeed; `ConstantInChain` and `AssignStores` cover the failing cases.
- The token's numeric value and name fields for other kinds are given by `TokenValue` and `TokenName` and carry no separate contract. The one-argument constructor (token_stream.h:44) sets the value to 0, but the name constructor (token_stream.h:46) leaves it uninitialised; the model picks 0 there too. This never matters, because the grammar reads the value only of a number token.
