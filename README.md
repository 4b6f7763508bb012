# Top-level statements of a generated Relay module

This project models, in Dafny, the collector that the Relay code generator
uses for the statements at the top of a generated JavaScript module
(`compiler/crates/relay-codegen/src/top_level_statements.rs`):

- the two enums `TopLevelStatement` (an import or a verbatim variable
  definition) and `ModuleImportName` (a default import, or a named import
  with an optional alias), together with the total order Rust derives for
  them (variant declaration order first, then the fields in order,
  strings compared lexicographically, `None` before `Some`);
- the text of one statement: the three `import` line templates, or the
  definition text unchanged;
- the collection `TopLevelStatements`, an insertion-ordered map from a
  symbol to a statement, with `insert`, `contains` and `is_empty`;
- the collection's text: the stored statements are collected into a
  vector, sorted in place, and their texts written one after another.

Files and modules:

- `orderings.dfy` (`Orderings`): the three-way `Ordering`, `Option`,
  lexicographic comparison of strings and the order on `Option`, each
  proved to be an order (`Equal` exactly on equal values, reversible,
  transitive); the string comparison is proved to agree with a textbook
  definition of lexicographic order (`CompareStringsLess`).
- `statement.dfy` (`Statement`): the enums, the derived comparison, `Le`
  as a total order, `Render` for one statement and `RenderSeq` for a
  sequence of them.
- `import_syntax.dfy` (`ImportSyntax`): a parser that accepts only
  rendered import lines and reads back every import whose names are plain
  identifiers. It is the partner of `Render`: every import with plain names
  is read back from its line, and every line the parser accepts is the
  rendering of what it returns. Hence two different imports with plain
  names never print the same line; without that restriction, different
  imports can print the same line (`RenderAmbiguousWithoutPlainNames`).
- `sorting.dfy` (`Sorting`): sortedness under the derived order, a
  functional reference sort, the proof that a multiset of statements has
  exactly one sorted arrangement, the in-place array sort that stands for
  the vector sort, and the four ordering consequences for the output.
- `collection.dfy` (`Collection`): the class `TopLevelStatements` (the key
  order as a `seq`, the mapping as a `map`), its operations, its rendering,
  and the lemmas that the text depends only on the multiset of stored
  statements and not on the insertion order.

## Model

| member | source | states |
|---|---|---|
| Orderings.CompareStrings | compiler/crates/relay-codegen/src/top_level_statements.rs:17-21 | Comparing two strings gives `Equal` exactly when they are the same string. |
| Orderings.CompareStringsLess | compiler/crates/relay-codegen/src/top_level_statements.rs:17-21 | The string comparison says `Less` exactly when the first string is a proper prefix of the second or is smaller at the first position where they differ. |
| Orderings.CompareStringsReverse | compiler/crates/relay-codegen/src/top_level_statements.rs:17-21 | Swapping the arguments reverses the string comparison. |
| Orderings.CompareStringsTransitive | compiler/crates/relay-codegen/src/top_level_statements.rs:17-21 | The string comparison is transitive, and strictly so when either step is strict. |
| Orderings.CompareOptions | compiler/crates/relay-codegen/src/top_level_statements.rs:27-30 | For the optional alias, `None` comes before every `Some`, and two `Some` compare by their strings. The result is `Equal` exactly on equal options. |
| Orderings.CompareOptionsReverse | compiler/crates/relay-codegen/src/top_level_statements.rs:27-30 | Swapping the arguments reverses the option comparison. |
| Orderings.CompareOptionsTransitive | compiler/crates/relay-codegen/src/top_level_statements.rs:27-30 | The option comparison is transitive, and strictly so when either step is strict. |
| Statement.CompareImportNames | compiler/crates/relay-codegen/src/top_level_statements.rs:24-31 | The derived order on import names gives `Equal` exactly on equal names. |
| Statement.CompareImportNamesReverse | compiler/crates/relay-codegen/src/top_level_statements.rs:24-31 | Swapping the arguments reverses the import-name comparison. |
| Statement.CompareImportNamesTransitive | compiler/crates/relay-codegen/src/top_level_statements.rs:24-31 | The import-name comparison is transitive, and strictly so when either step is strict. |
| Statement.Compare | compiler/crates/relay-codegen/src/top_level_statements.rs:15-22 | The derived order on statements gives `Equal` exactly on equal statements. |
| Statement.CompareReverse | compiler/crates/relay-codegen/src/top_level_statements.rs:15-22 | Swapping the arguments reverses the statement comparison. |
| Statement.CompareTransitive | compiler/crates/relay-codegen/src/top_level_statements.rs:15-22 | The statement comparison is transitive, and strictly so when either step is strict. |
| Statement.LeTotal | compiler/crates/relay-codegen/src/top_level_statements.rs:15-22 | Any two statements are comparable, and two statements each at most the other are equal, so the derived order is total. |
| Statement.Render | compiler/crates/relay-codegen/src/top_level_statements.rs:33-55 | A variable definition renders as exactly its text. Every import renders as a line that starts with `import ` and ends with a quote, a semicolon and a newline. |
| Statement.RenderSeqAppend | compiler/crates/relay-codegen/src/top_level_statements.rs:75-77 | The text of two sequences of statements written one after the other is the two texts concatenated. |
| ImportSyntax.RenderImportShape | compiler/crates/relay-codegen/src/top_level_statements.rs:39-48 | Every import line is `import `, then the clause for its name, then ` from '`, the path and `';` with a newline. The clause is the bare default name, `{name}`, or `{name as alias}`. |
| ImportSyntax.ParseRender | compiler/crates/relay-codegen/src/top_level_statements.rs:39-48 | Any import whose names are plain identifiers is read back unchanged from its rendered line. |
| ImportSyntax.RenderParse | compiler/crates/relay-codegen/src/top_level_statements.rs:39-48 | Every line the parser accepts is exactly the rendering of the import it returns. |
| ImportSyntax.ParseClauseSound | compiler/crates/relay-codegen/src/top_level_statements.rs:40-48 | An import clause that parses is exactly the clause text that the rendering writes for the parsed name. |
| ImportSyntax.RenderInjective | compiler/crates/relay-codegen/src/top_level_statements.rs:39-48 | Two imports with plain names and the same line are the same import. |
| ImportSyntax.RenderAmbiguousWithoutPlainNames | compiler/crates/relay-codegen/src/top_level_statements.rs:40-48 | If the imported name itself contains ` as `, an unaliased import prints the same line as a different aliased import; a default name written in braces prints the same line as a named import. |
| Sorting.InsertSorted | compiler/crates/relay-codegen/src/top_level_statements.rs:74 | Inserting into a sorted sequence keeps it sorted and adds exactly the new element. |
| Sorting.Sort | compiler/crates/relay-codegen/src/top_level_statements.rs:74 | The reference sort returns a sorted permutation of its input. |
| Sorting.SortedUnique | compiler/crates/relay-codegen/src/top_level_statements.rs:74 | Two sorted sequences with the same multiset of statements are equal, so every correct sort gives the same vector. |
| Sorting.SortDependsOnlyOnMultiset | compiler/crates/relay-codegen/src/top_level_statements.rs:73-74 | Sorting two arrangements of the same statements gives the same sequence. |
| Sorting.SiftStep | compiler/crates/relay-codegen/src/top_level_statements.rs:74 | Swapping the sifted element with a greater predecessor keeps the parts on either side in order and keeps the multiset. |
| Sorting.SiftDone | compiler/crates/relay-codegen/src/top_level_statements.rs:74 | Once the sifted element is at least its predecessor, the prefix up to its starting position is sorted. |
| Sorting.SiftDown | compiler/crates/relay-codegen/src/top_level_statements.rs:74 | Inserting one more element into a sorted prefix of the array leaves the longer prefix sorted, the array's multiset unchanged and every element after that prefix in place, so the new prefix is a sorted permutation of the old one. |
| Sorting.SortInPlace | compiler/crates/relay-codegen/src/top_level_statements.rs:74 | The in-place sort leaves the array sorted and a permutation of its old contents. |
| Sorting.ImportsPrecedeDefinitions | compiler/crates/relay-codegen/src/top_level_statements.rs:15-22 | In a sorted sequence, every import comes before every variable definition. |
| Sorting.DefaultsPrecedeNamed | compiler/crates/relay-codegen/src/top_level_statements.rs:24-31 | In a sorted sequence, every default import comes before every named import. |
| Sorting.ImportsByNameThenPath | compiler/crates/relay-codegen/src/top_level_statements.rs:17-20 | In a sorted sequence, imports are ordered by import name, and imports with equal names by path. |
| Sorting.UnaliasedPrecedesAliased | compiler/crates/relay-codegen/src/top_level_statements.rs:27-30 | In a sorted sequence, a named import without an alias comes before one with an alias when the imported names are equal. |
| Collection.ValuesOf | compiler/crates/relay-codegen/src/top_level_statements.rs:73 | The stored values, in key order, have one entry per key, and entry `i` is the statement stored under key `i`. |
| Collection.TopLevelStatements.constructor | compiler/crates/relay-codegen/src/top_level_statements.rs:13-14 | The default collection has no keys and no entries, and its text is the empty string. |
| Collection.TopLevelStatements.Insert | compiler/crates/relay-codegen/src/top_level_statements.rs:58-60 | After inserting, the mapping is the old one updated at the symbol, so every other symbol keeps its membership and its statement. The symbol is contained and maps to the new statement. An existing symbol keeps its place and the entry count; a new one is appended and the count grows by one. The stored statements lose the replaced one and gain the new one. |
| Collection.TopLevelStatements.Contains | compiler/crates/relay-codegen/src/top_level_statements.rs:62-64 | A symbol is contained exactly when it was inserted, i.e. when it is in the key order. |
| Collection.TopLevelStatements.IsEmpty | compiler/crates/relay-codegen/src/top_level_statements.rs:66-68 | The collection is empty exactly when no symbol has been inserted, which is exactly when there are no stored statements. |
| Collection.TopLevelStatements.CollectValues | compiler/crates/relay-codegen/src/top_level_statements.rs:73 | The fresh array holds the stored statements in insertion order. |
| Collection.Concatenate | compiler/crates/relay-codegen/src/top_level_statements.rs:75-77 | Writing each element of the array in turn produces the concatenated texts of the array's statements. |
| Collection.TopLevelStatements.Text | compiler/crates/relay-codegen/src/top_level_statements.rs:71-80 | The collection's text is the concatenated texts of the stored statements in ascending derived order. |
| Collection.OverwriteValues | compiler/crates/relay-codegen/src/top_level_statements.rs:58-60 | Overwriting a stored symbol swaps the old statement for the new one in the multiset of stored statements. |
| Collection.AddValues | compiler/crates/relay-codegen/src/top_level_statements.rs:58-60 | Inserting a new symbol keeps the key order duplicate-free and adds the statement to the multiset of stored statements. |
| Collection.EntryCount | compiler/crates/relay-codegen/src/top_level_statements.rs:58-60 | The number of entries equals the length of the key order, so `Insert`'s statements about key counts are statements about entry counts. |
| Collection.ValuesPermutation | compiler/crates/relay-codegen/src/top_level_statements.rs:73 | Listing the same mapping under two permutations of its keys gives the same multiset of statements. |
| Collection.DistinctSameKeys | compiler/crates/relay-codegen/src/top_level_statements.rs:13-14 | Two duplicate-free key orders over the same symbols are permutations of each other. |
| Collection.OutputDependsOnlyOnMultiset | compiler/crates/relay-codegen/src/top_level_statements.rs:73-77 | The text depends only on the multiset of stored statements. |
| Collection.OutputIndependentOfInsertionOrder | compiler/crates/relay-codegen/src/top_level_statements.rs:71-80 | Two collections holding the same mapping produce the same text, whatever order the symbols were inserted in. |
| Collection.Imports | compiler/crates/relay-codegen/src/top_level_statements.rs:17-20 | The import filter keeps exactly the import statements. |
| Collection.Definitions | compiler/crates/relay-codegen/src/top_level_statements.rs:21 | The definition filter keeps exactly the variable definitions. |
| Collection.SortedSplit | compiler/crates/relay-codegen/src/top_level_statements.rs:74 | A sorted sequence is its imports followed by its variable definitions. |
| Collection.ImportsRenderFirst | compiler/crates/relay-codegen/src/top_level_statements.rs:74-77 | The text is all import lines first, then all variable definitions. |

## Left out

- Hashing: the FNV hasher and the internals of `IndexMap` are not modelled. The store is a key sequence plus a `map`. Hashing cannot affect the text, because the text is sorted.
- `std::fmt::Formatter` and the write errors passed on with `?` are not modelled. Rendering produces a `string`, and a write never fails.
- The sorting algorithm: Rust's `slice::sort` is library code. The model sorts with an in-place insertion sort instead. `Sorting.SortedUnique` shows that every correct sort gives the same vector, so the text is the same.
- String order: Rust compares `String`s by their UTF-8 bytes. The model compares characters (code points) lexicographically, and both orders agree for every pair of strings. Encoding is not modelled.
- The `Clone` derives are not modelled, since copying has no observable effect here.
- `Statement.Render`: its contract states only the frame of an import line; the exact templates are stated by `ImportSyntax.RenderImportShape`. The round trip with the parser is stated only for imports whose names are plain identifiers. `ImportSyntax.RenderAmbiguousWithoutPlainNames` shows that the rendering is not one-to-one without that restriction.
- The fixture tests for the client-edges and data-driven-dependency transforms, and those transforms, are not modelled.
