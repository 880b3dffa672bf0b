# learning_go core, modelled in Dafny

Three small pieces of the `learning_go` tutorial repository, each with exact
behaviour:

- **Integer map summation** (`generics/main.go`): `SumInts`, and the generic
  `SumNums` and `SumNumbers` at value type `int64`. Each one starts an
  accumulator at zero and adds every value of a map to it inside a
  `for _, v := range m` loop. Module `Generics` (`generics.dfy`) models Go's
  `int64` as a newtype. It models `s += v` as addition with two's-complement
  wrap-around modulo 2^64 (`Wrap`, `AddWrap`). The three Go functions run the
  same loop, so the model writes it once, in `SumNums`. `SumInts` and
  `SumNumbers` call it. The loop visits the keys in whatever order
  `k :| k in rest` picks, so the proof holds for every order. Every method is
  proved to return `Wrap(Total(m))`. `Total(m)` is the
  unbounded sum of the multiset of map values (`ValueBag`). When that sum fits
  in `int64`, the result is the sum itself. A separate lemma,
  `OrderIndependent`, shows that folding the values in any enumeration of the
  keys gives the same `int64`.
- **In-memory album store** (`web-service-gin/main.go`): the `album` record,
  the three-album seed, and the collection logic of the `getAlbums`,
  `getAlbumByID` and `postAlbums` handlers. In module `Albums` (`albums.dfy`),
  the package-level slice becomes the `albums` field of class `AlbumStore`.
  Each handler becomes a method that returns the status code and body it
  would send. `GetByID` is the first-match scan with an early return.
  `Post` takes the decoded body as an `Option<Album>`, where `None` means
  `BindJSON` failed.
- **Greeting formatter** (`tutorial2/greetings.go`): `Hello` formats
  `"Hi, %v. Welcome!"` with the name. In module `Greetings` (`greetings.dfy`),
  `SprintfV` is the part of `fmt.Sprintf` that this call uses: one `%v` verb
  with a string operand, filled by `SubstituteFirstV`. `Hello` is proved to equal `"Hi, " + name + ". Welcome!"`.

`wrappers.dfy` holds the `Option` datatype.

## Model

| member | source | states |
|---|---|---|
| `Generics.Wrap` | generics/main.go:48 | the int64 result of `s += v` equals the true sum whenever that sum lies in the int64 range |
| `Generics.WrapCongruent` | generics/main.go:48 | the wrapped value differs from the true value by a multiple of 2^64 |
| `Generics.AddWrap` | generics/main.go:48 | Go's int64 `+`: the exact sum whenever it fits in int64 |
| `Generics.WrapAddWrap` | generics/main.go:47-49 | wrapping after every step ends at the same int64 as wrapping the whole sum once |
| `Generics.BagSumRemove` | generics/main.go:47-49 | the sum of a multiset may take out any element first, so the summation order does not matter |
| `Generics.BagSumUnion` | generics/main.go:47-49 | the sum of a union of multisets is the sum of their sums |
| `Generics.ValueBagRemove` | generics/main.go:47 | the multiset of map values may take out any key first, whichever key `range` visits first |
| `Generics.ValueBagCount` | generics/main.go:47-49 | each value is in the multiset exactly as many times as there are keys holding it, so every entry is counted once |
| `Generics.TotalEmpty` | generics/main.go:46-50 | an empty map sums to 0, the zero value the accumulator starts at |
| `Generics.TotalRemove` | generics/main.go:47-49 | the sum is any one key's value plus the sum of the rest of the map |
| `Generics.TotalAddFresh` | generics/main.go:47-49 | adding a fresh key with value v raises the sum by exactly v, and raises the int64 sum by v with wrap-around |
| `Generics.ExampleTotal` | generics/main.go:14-17 | `{"first": 34, "second": 12}` sums to 46, both unbounded and as int64 |
| `Generics.FoldAdd` | generics/main.go:47-49 | the `range` loop of wrapping `s += v` steps over values listed in visiting order ends at the wrapped unbounded sum of those values plus the start value |
| `Generics.SeqSumIsBagSum` | generics/main.go:47-49 | summing values in the order they are listed gives the sum of their multiset |
| `Generics.EnumerationValues` | generics/main.go:47 | any order that visits each key once yields exactly the multiset of the map's values |
| `Generics.OrderIndependent` | generics/main.go:46-50 | whatever order the keys are visited in, the loop returns the same int64, `Wrap(Total(m))` |
| `Generics.SumNums` | generics/main.go:70-84 | at V = int64, for any key type and any visiting order: returns the int64 wrap of the sum of the value multiset, and the exact sum when it fits in int64 |
| `Generics.SumInts` | generics/main.go:45-51 | for string keys: the same result as `SumNums` |
| `Generics.SumNumbers` | generics/main.go:91-97 | at V = int64, for any key type: the same result as `SumNums` |
| `Generics.SumsAgree` | generics/main.go:26-40 | the three functions agree on every map, and give 46 on the example map |
| `Albums.SeedIds` | web-service-gin/main.go:23-27 | the seed holds exactly three albums, with IDs "1", "2", "3" in that order |
| `Albums.FindFirst` | web-service-gin/main.go:76-81 | finds nothing exactly when no album has the ID; otherwise gives the position of the first album with that ID |
| `Albums.ByID` | web-service-gin/main.go:76-84 | the response for an ID: 404 with "album not found" exactly when no album has the ID; otherwise 200 with the first album in order that has it (defined through `FindFirst`; `GetByID` is proved equal to it) |
| `Albums.ByIDAppendPresent` | web-service-gin/main.go:65 | appending any album, even one with a duplicate ID, does not change the lookup of an ID that was already present, so the earlier record still wins |
| `Albums.ByIDAppendFresh` | web-service-gin/main.go:65 | an appended album is returned with 200 by its ID when no earlier album has that ID |
| `Albums.SeedLookups` | web-service-gin/main.go:23-27 | on the seed, ID "2" gives 200 with the album by "Gerry Mulligan"; ID "99" gives 404 "album not found" |
| `Albums.AlbumStore.constructor` | web-service-gin/main.go:23-27 | a new store holds exactly the seed |
| `Albums.AlbumStore.List` | web-service-gin/main.go:48-53 | status 200 with the whole collection in order; the collection is unchanged (no modifies clause) |
| `Albums.AlbumStore.GetByID` | web-service-gin/main.go:69-85 | 404 with "album not found" exactly when no album has the ID; otherwise 200 with the first album in order that has it; the collection is unchanged |
| `Albums.AlbumStore.Post` | web-service-gin/main.go:55-67 | on a decode failure, nothing is sent and the collection is unchanged; otherwise the album is appended last, earlier albums are unchanged, the length grows by one, and the album is returned with 201 |
| `Albums.PostThenGet` | web-service-gin/main.go:65-84 | after a post to a fresh store the list is one longer; a lookup by the new ID returns the new album, or the seed album if the ID was taken |
| `Greetings.SubstituteFirstV` | tutorial2/greetings.go:7 | the first `%v` of the format replaced by the operand; a format with no `%` has no verb to fill, so nothing is substituted |
| `Greetings.SprintfV` | tutorial2/greetings.go:7 | `fmt.Sprintf` with one string operand: a format with no `%` leaves the operand unused, and fmt then appends it as `%!(EXTRA string=…)` after the unchanged format |
| `Greetings.SubstituteLiteral` | tutorial2/greetings.go:7 | text without `%` is copied unchanged in front of whatever the rest of the format substitutes to |
| `Greetings.SprintfVLiteral` | tutorial2/greetings.go:7 | formatting copies text without `%` unchanged in front of the rest |
| `Greetings.SprintfVOneVerb` | tutorial2/greetings.go:7 | a format with exactly one `%v` and no other `%` gives the text before it, then the operand, then the text after it |
| `Greetings.Hello` | tutorial2/greetings.go:5-9 | always returns exactly `"Hi, " + name + ". Welcome!"`; there is no failure path |
| `Greetings.HelloShape` | tutorial2/greetings.go:7 | the greeting starts with "Hi, ", ends with ". Welcome!", holds the name between them, and is 14 characters longer than the name |
| `Greetings.HelloInjective` | tutorial2/greetings.go:7 | different names give different greetings |
| `Greetings.HelloEmpty` | tutorial2/greetings.go:5-9 | the empty name gives "Hi, . Welcome!" |

## Left out

- `SumFloats` and the `float64` instantiations of `SumNums` and `SumNumbers` are left out. Floating-point sums are not modelled.
- `main` in `generics/main.go` only prints with `fmt.Printf`. Only its integer example map survives, in `ExampleTotal` and `SumsAgree`.
- `Generics.SumNums` and `Generics.SumNumbers`: a Go map whose key type has a value unequal to itself (a `float64` NaN key) can hold several entries under NaN keys, and `range` visits each of them. A Dafny `map` holds at most one entry per key, so such maps are not modelled.
- `Generics.SumNums` and `Generics.SumNumbers` are modelled only at V = int64. The `Number` and `comparable` constraints show up only as the types of the methods.
- The gin router, `router.Run`, JSON encoding with `IndentedJSON` and JSON decoding with `BindJSON` are not modelled. A response is modelled as a status code and a body value. A decode failure is the `None` input of `Post`. When decoding fails, the handler itself returns without writing a response, and the model has it send nothing. Whatever gin's binding code writes on its own is not part of this model.
- Concurrent handler calls are not modelled. The source guards the slice with no lock, and the model is sequential.
- `Albums.Price` is a `real`, not an IEEE float64. Nothing reads or computes with the price, so no rounding is modelled.
- `Greetings.SprintfV` models only the `%v` verb with one string operand, which is all `Hello` uses. An unused operand gives the `%!(EXTRA string=…)` suffix. Other verbs, `%%`, a `%` with no verb after it, and a second `%v` with no operand left (`%!v(MISSING)`) are not modelled: such text is copied as it stands, and no contract speaks about it.
- Go strings are byte sequences, and the model's `string` is a sequence of characters. No operation here depends on the difference. The greeting's fixed text is ASCII, so the 14-character difference in `HelloShape` is also 14 bytes.
- `fuzz/reverse_test.go` is not modelled. The `Reverse` function it tests is not part of this model, and the rest of the file is fuzzing-framework plumbing.
- `tutorial1/hello.go` is a single print statement with no logic, so it is not modelled.
