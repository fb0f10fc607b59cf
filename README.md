# valete: the in-memory core of the `.vlt` compiler driver

This project models, in Dafny, the sequential in-memory core of `valete.c`,
the bootstrap driver of a compiler for `.vlt` source files:

- **Paths** (`paths.dfy`): `filepath_extension`, the text after the last dot
  of a path (or none), and `source_filepath`, whether that text is exactly
  `vlt`. Proved: a path is a source path exactly when it ends in `.vlt`.
- **Arenas** (`arena.dfy`): the chained bump arena `Arena` with
  `arena_create` and `arena_push`, as a class whose blocks are linked through
  `next`. Addresses are abstract. A block is its capacity (`end - begin`) and
  the offset of its cursor. A chain is the sequence of its blocks. A returned
  pointer is a `Region`: block index, offset and size. `Arena.Push` recurses
  down the chain as the source does. It is proved equal to the function
  `PushChain`. Proved about `PushChain`:
  - the request is served by the first block with room, or by one new block
    of `max(size, capacity of the last block)`;
  - cursors stay within their blocks;
  - capacities never shrink along the chain;
  - a zero-size push changes nothing;
  - any run of pushes hands out pairwise non-overlapping regions.
- **StringLists** (`strings.dfy`): the growable reference list `Strings`.
  It is a class over an `array?` (null after `strings_destroy`), with the
  capacity `length` and the fill `count`. Its methods are `create`, `destroy`,
  `add` (doubling when full), `remove` (a shift-left loop) and `find` (a
  linear identity search answering `SIZE_MAX` when nothing matches). Elements
  are opaque values compared with `==`, standing for the pointer identity of
  the source.
- **CommandLine** (`commands.dfy`): `commands_parse`. It is a pure
  specification `Parse` over the argument vector, and the looping method
  `ParseCommands` that builds a `Strings` list. The method is proved equal to
  `Parse`. `Parse` is characterised against an independent grammar of items:
  `-h`, `-o PATH`, or a `.vlt` path.

Points of valete.c's behaviour worth knowing:

- `arena_destroy` frees only the block itself and its immediate `next`, not
  the whole chain. It is left out (see below), and nothing here claims that
  destruction releases a chain.
- `commands_parse` fails on a vector holding only the program name. But an
  empty vector (`argc == 0`) never enters the loop and succeeds with output
  `out` and no inputs. `Parse` and `ParseSucceedsIff` state this case.
- On failure, `commands_parse` returns the partly filled record: the inputs
  and output path read before the offending argument. `Parse` returns the
  same.
- `-o` takes the next argument verbatim, even when it is `-h`, `-o` or a
  `.vlt` path.

## Model

| member | source | states |
|---|---|---|
| Paths.ScanDot | valete.c:14-19 | the scan over the path ends with the position of the last `'.'` of the whole path (no dot after it), or with none when the path holds no dot |
| Paths.Extension | valete.c:13-21 | the result is absent exactly when the path has no dot; otherwise it is the suffix after a dot and holds no dot itself, so it is the text after the last dot |
| Paths.IsSourcePath | valete.c:23-29 | a path `source_filepath` accepts ends in `.vlt`; `SourcePathIffSuffix` gives the converse |
| Paths.SourcePathIffSuffix | valete.c:23-29 | `source_filepath` holds exactly when the path ends in `.vlt` (so `a.b.vlt` and `.vlt` pass, `vlt` and `a.vlt.x` fail) |
| StringLists.RemovedAt | valete.c:143-149 | removing position `index` keeps the elements before it and shifts each later one down by one position, one element shorter |
| StringLists.IndexFrom | valete.c:151-158 | the scan answers the first position at or after `i` holding the element, or SIZE_MAX when no position from `i` on holds it |
| StringLists.FindIn | valete.c:151-158 | what `strings_find` answers for given contents: the first position holding the element, or SIZE_MAX when it is absent; `FindInIsFirst`, `FindAfterAdd` and `FindAfterRemove` describe it further |
| StringLists.FindInIsFirst | valete.c:151-158 | `strings_find` answers an index below the count exactly when the element is present, SIZE_MAX exactly when it is absent, and the answer is its first occurrence |
| StringLists.FindAfterAdd | valete.c:132-158 | adding an element not yet present and then finding it answers the old count, the slot it was stored in |
| StringLists.FindAfterRemove | valete.c:143-158 | after removing position `index`, an element first found after `index` is found one position earlier, one found before `index` where it was |
| StringLists.Grown | valete.c:133-134 | the capacity after an add is the old one or its double, the old one exactly when the list had room (or had capacity 0), and a live list then has room for the new element; `CapacityIsLeastDoubling` describes repeated adds |
| StringLists.Doubled | valete.c:133-134 | repeated doubling of a capacity ends at the least `length * 2^k` that holds the needed count |
| StringLists.CapacityIsLeastDoubling | valete.c:132-141 | after any number of adds to a list with `count <= length`, the capacity is the least doubling of the initial capacity that holds all elements |
| StringLists.Strings.constructor | valete.c:112-121 | `strings_create` needs a capacity of at least 1 and yields an empty list of exactly that capacity |
| StringLists.Strings.Destroy | valete.c:123-130 | `strings_destroy` resets capacity and count to 0 and the storage to null, leaving an empty list |
| StringLists.Strings.Add | valete.c:132-141 | `strings_add` doubles the capacity exactly when the list is full and otherwise keeps it (and its storage); the contents become the old contents followed by the element; the answer is the new count; `count <= length` still holds |
| StringLists.Strings.Remove | valete.c:143-149 | `strings_remove`, for an index below the count, leaves the old contents with that position deleted in order, keeps capacity and storage, and answers the new count, one less |
| StringLists.Strings.Find | valete.c:151-158 | `strings_find` answers what the identity scan over the contents answers: the first matching position or SIZE_MAX |
| Arenas.PushChain | valete.c:90-104 | a push keeps every cursor within its block and grows the chain by at most one block |
| Arenas.PushChainServes | valete.c:90-104 | a push is served in full by the first block with `end - cursor >= size`, which returns its old cursor and advances it by exactly `size`; when none has room, by one new block of `max(size, last capacity)` at offset 0; every other block is unchanged |
| Arenas.PushKeepsWellFormed | valete.c:98-101 | a push keeps the chain well formed: cursors within bounds and block capacities non-decreasing along the chain |
| Arenas.PushZero | valete.c:91-95 | a zero-size push returns the receiving block's cursor and leaves the chain as it was, so it never grows it |
| Arenas.PushLargerThanAll | valete.c:98-103 | a request larger than every block creates exactly one new block, sized to the request, and is served at its start |
| Arenas.PushDisjoint | valete.c:90-104 | a push leaves the earlier regions in use and hands out a region that overlaps none of them |
| Arenas.PushAllDisjoint | valete.c:90-104 | any run of pushes hands out one region per request, pairwise non-overlapping, each within the used part of its block |
| Arenas.Arena.constructor | valete.c:71-81 | `arena_create` yields one block of the requested capacity with its cursor at the beginning and no overflow block |
| Arenas.Arena.Push | valete.c:90-104 | `arena_push` on the linked blocks changes the chain and returns the region exactly as `PushChain` says, allocating only fresh blocks and keeping the chain valid (cursors bounded, capacities non-decreasing) |
| CommandLine.ParseFrom | valete.c:178-206 | the loop from argument `i` on never drops an input and appends at most one input per remaining argument; `CollectsSources`, `ParseFromRendered` and `ParsedItems` describe it further |
| CommandLine.CollectsSources | valete.c:178-206 | the loop only appends to the inputs (the record's inputs stay a prefix), every input it appends is a `.vlt` argument of the vector, and the output path is kept or replaced by an argument |
| CommandLine.Parse | valete.c:166-207 | a vector holding only the program name fails; an empty one succeeds with output `out` and no inputs; every input is a `.vlt` argument and the output is `out` or an argument; `ParseSucceedsIff` describes it exactly |
| CommandLine.ParseFromRendered | valete.c:178-206 | parsing a run of well-formed items succeeds, collects the `.vlt` paths in their order and keeps the last `-o` path (or the output path already in the record when there is none) |
| CommandLine.ParsedItems | valete.c:178-203 | a successful parse read nothing but well-formed items: `-h`, `-o` with a following argument, or a `.vlt` path |
| CommandLine.ParseSucceedsIff | valete.c:166-207 | parsing succeeds exactly when the vector is empty, or has at least one argument after the program name and those arguments are a run of well-formed items; then the inputs are the `.vlt` paths in order and the output is the last `-o` path or `out` |
| CommandLine.ParseCommands | valete.c:166-207 | the index loop over the arguments, appending to a `Strings` list of capacity 2, ends with the success flag, output path and list contents that `Parse` gives |

## Left out

- `read_file` (file input through `fopen`, `fseek`, `ftell`, `fread`): I/O, outside the in-memory core.
- `print_help`, `main` and every `printf` (usage, help and error messages): console output. `ParseCommands` takes the same branches but prints nothing.
- `arena_destroy`: releasing memory cannot be observed in the model. It frees only the immediate `next` block, not the whole chain.
- Failure of `malloc`/`realloc` and the `assert(... != NULL)` after them: allocation always succeeds in the model.
- Raw addresses and the block header placed in front of its bytes (`(uint8_t *)(arena + 1)`): blocks are addressed by chain index and offset instead.
- `size_t` overflow in `sizeof (Arena) + length`, `length * 2` and `length * sizeof (char *)`: integers are unbounded in the model.
- StringLists.Strings.Add: requires a capacity of at least 1. On a destroyed list (capacity 0) the source writes past a zero-size buffer, which is undefined behaviour.
- StringLists.FindInIsFirst: requires at most SIZE_MAX elements. With more, an index could coincide with the "not found" answer. No real list can be that large.
- StringLists.FindAfterRemove: requires at most SIZE_MAX elements, for the same reason. It says nothing about an element whose first occurrence is the removed one.
- Strings hold no NUL character. A C string ends at its first NUL, so `filepath_extension`, `source_filepath` and the `strcmp` tests of `commands_parse` never look past it. A Dafny `string` can contain `'\0'`, and for such a string the model reads on (`Extension("a\0.b")` is `Some("b")` where C answers NULL). Command-line arguments never contain NUL.
- `SIZE_MAX` is taken as 2^64 - 1, the value for a 64-bit `size_t`. The source's value depends on the platform.
