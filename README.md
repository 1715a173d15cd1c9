# gallery-of-dogs: the runtime logic, modelled in Dafny

The repository is a small React front-end that shows random dog pictures
from the Dog API, plus a file of TypeScript exercises. Most of it is UI
wiring. Two parts hold runtime logic whose behaviour can be stated exactly,
and those are what this project models and proves things about:

- **src/api.ts**, `fetchImages`: the breed name has its first `-` turned
  into `/` (`breed.replace('-', '/')`, so `australian-shepherd` becomes
  `australian/shepherd`). The result goes into the fixed URL template
  `https://dog.ceo/api/breed/<breed>/images/random/12`. Module `DogApi`,
  with the string search `IndexOf` in module `Strings`.
- **src/sample.tsx**, four runtime exercises:
  - `mapFromArray` indexes an array into a JavaScript `Map` by one field,
    and a later element overwrites an earlier one. Module `Indexing`: a
    method with a loop, proved against the functions `Indexed` (the Map's
    entries) and `KeyOrder` (the order the Map iterates its keys in, which
    is first-insertion order).
  - `reducer` is a counter state machine with four actions. Module `Counter`.
  - `pageGenerators` / `renderPage` turn a tagged `Page` into an HTML
    string. Module `Pages`. Its partner is a parser, `ParsePage`, proved
    to invert rendering for well-formed pages.
  - `giveId` is the object spread `{ ...obj, id }`. Module `Records`, where
    a JavaScript object is a `map<string, Value>`.

Modelling choices:

- Numbers are Dafny `int`s.
- Strings are sequences of characters.
- A field read `obj[key]` is a projection function `T -> K`.
- In `mapFromArray` the local Map is two local variables that the loop
  reassigns: a `map` of entries and a `seq` of keys in insertion order.
- sample.tsx is stored with CRLF line ends. A template literal turns each
  CRLF into LF, so the ranking page's fixed head is
  `"<h1>ranking</h1>\n         <ul>\n        "` (`Pages.RankingHead`).

Where the code and its comments disagree, or where one might expect other behaviour, the model follows the code:

- The comment at src/sample.tsx:18-25 shows the example Map keyed by the
  numeric ids. The call at src/sample.tsx:17 keys it by `"name"`, so
  `Indexing.SampleDataByName` proves the keys are the three names.
- One might expect every `-` in a breed to become `/`. JavaScript's
  `replace` with a string pattern replaces only the first one, and that is
  what is modelled.
  `DogApi.ReplaceFirstIsReplaceAllIff` proves the two readings agree
  exactly when the breed holds at most one `-`. `DogApi.BreedPathExample`
  shows where they part: `"a-b-c"` becomes `"a/b-c"`.
- The code does not check that the breed is non-empty, so no operation
  here has a precondition on the breed.

## Model

| member | source | states |
|---|---|---|
| DogApi.BreedPath | src/api.ts:2 | `breed.replace('-', '/')`: `ReplaceFirst` of the breed, `-` to `/` |
| Strings.IndexOf | src/api.ts:2 | the position `replace` acts on: -1 exactly when the character is absent, otherwise an index holding it with no earlier occurrence |
| Strings.IndexOfAfterPrefix | src/api.ts:2 | after a prefix free of the character, the first occurrence is found at the prefix's length plus its position in the rest |
| DogApi.ReplaceFirst | src/api.ts:2 | length is preserved; a string without the pattern is returned unchanged; otherwise the result is the input with only its first occurrence replaced (`s[i := to]`, no occurrence before `i`) |
| DogApi.BreedPathOnlyFirstDash | src/api.ts:2 | everything before the first `-` and everything after it (later `-` included) is unchanged, and the first `-` becomes `/` |
| DogApi.BreedPathNoDash | src/api.ts:2-6 | a breed without `-` is used verbatim and its URL is prefix + breed + suffix |
| DogApi.ReplaceFirstSplit | src/api.ts:2 | a string whose first pattern character follows `pre` keeps `pre` and the rest, with the replacement in between |
| DogApi.BreedPathSplit | src/api.ts:2 | `pre + "-" + post` with no `-` in `pre` is requested as `pre + "/" + post` |
| DogApi.BreedPathRestore | src/api.ts:2 | for a breed without `/`, turning the first `/` back into `-` restores the breed (the rewrite is invertible) |
| DogApi.ReplaceFirstIsReplaceAllIff | src/api.ts:2 | replacing the first `-` equals replacing every `-` if and only if the breed has at most one `-` |
| DogApi.BreedPathExample | src/api.ts:2 | `"a-b-c"` becomes `"a/b-c"` |
| DogApi.BreedPathSubBreed | src/api.ts:2 | `"australian-shepherd"` becomes `"australian/shepherd"` |
| DogApi.RequestUrl | src/api.ts:4-6 | the URL starts with the fixed `https://dog.ceo/api/breed/` prefix, ends with the fixed `/images/random/12` suffix whatever the breed, and its length is the sum of the three parts |
| DogApi.ParseRequestUrl | src/api.ts:4-6 | any URL it accepts is exactly prefix + returned path + suffix |
| DogApi.RequestUrlRoundTrip | src/api.ts:2-6 | parsing the request URL string gives back the rewritten breed |
| DogApi.RequestUrlInjective | src/api.ts:2-6 | two breeds have the same request URL if and only if they have the same rewritten path |
| Indexing.Indexed | src/sample.tsx:4-7 | the Map's entries: start from the empty Map and set each element under its key, first to last |
| Indexing.KeyOrder | src/sample.tsx:4-7 | the Map's key iteration order: a key is appended when first set and stays in place when set again |
| Indexing.MapFromArray | src/sample.tsx:3-9 | the loop's Map equals `Indexed`/`KeyOrder` of the whole array. Its keys are exactly the keys of the elements. Each key holds the last element with that key. The size is at most the array length. The iteration order lists each key exactly once |
| Indexing.IndexedKeys | src/sample.tsx:4-7 | the Map's key set is the set of `key(obj)` over the elements `obj` of `arr` |
| Indexing.IndexedLastWins | src/sample.tsx:5-6 | under every key sits an element of `arr` with that key, and no later element has that key (`set` overwrites) |
| Indexing.IndexedSize | src/sample.tsx:5-6 | the Map has at most as many entries as the array has elements |
| Indexing.KeyOrderListsKeys | src/sample.tsx:4-8 | the Map's iteration order has no duplicates and lists exactly its keys |
| Indexing.KeyOrderStable | src/sample.tsx:5-6 | the order after any prefix is a prefix of the final order: an overwrite never moves a key |
| Indexing.IndexedEmpty | src/sample.tsx:4 | an empty array gives an empty Map with no keys |
| Indexing.SampleDataByName | src/sample.tsx:12-17 | the example data keyed by `"name"` gives the three names as keys, in array order, each holding its record |
| Counter.Reducer | src/sample.tsx:141-152 | the `switch` on the action's type: `state + amount`, `state - amount`, `value`, `state * value` |
| Counter.IncrementDecrementInverse | src/sample.tsx:143-146 | `increment a` then `decrement a`, in either order, restores the state |
| Counter.IncrementDecrementShift | src/sample.tsx:143-146 | increment adds exactly `amount` and decrement subtracts it, whatever the state; decrement is increment by `-amount` |
| Counter.IncrementsCompose | src/sample.tsx:143-144 | two increments add up to one increment by the sum |
| Counter.ResetIgnoresState | src/sample.tsx:147-148 | reset yields its value whatever the state, so it is idempotent |
| Counter.TimeMultiplies | src/sample.tsx:149-150 | `time v` multiplies the state by `v`; two of them multiply by the product |
| Counter.ReducerExamples | src/sample.tsx:155-166 | `reducer(100, increment 10) = 110`, `reducer(100, decrement 55) = 45`, `reducer(500, reset 0) = 0` |
| Records.Field | src/sample.tsx:5 | the property read `obj[name]`: the stored value, or `undefined` when the record has no such own property |
| Records.GiveId | src/sample.tsx:233-239 | `id` is the fixed string even if the input had an `id`; the keys are the input's plus `id`; every other field is unchanged |
| Records.GiveIdFields | src/sample.tsx:233-239 | reading any property of the result gives the fixed string for `id` and the input's value (or `undefined`) otherwise |
| Records.GiveIdIgnoresInputId | src/sample.tsx:233-239 | the result does not depend on what, if anything, the input held under `id` |
| Records.GiveIdIdempotent | src/sample.tsx:233-239 | giving an id twice equals giving it once |
| Records.GiveIdExamples | src/sample.tsx:245-252 | `{foo: 123}` gains the string id; `{num: 0, id: 100}` has its numeric id replaced by it |
| Pages.TopGenerator | src/sample.tsx:337 | the fixed string `<p>top page</p>` |
| Pages.MyPageGenerator | src/sample.tsx:338 | `<p>Hello, ` + userName + `!</p>` |
| Pages.ListItem | src/sample.tsx:342 | the `map` callback: `<li>` + name + `</li>` |
| Pages.Join | src/sample.tsx:342 | `Array.prototype.join`: the parts with the separator between neighbours, and `""` for no parts |
| Pages.RankingGenerator | src/sample.tsx:339-342 | the fixed head, `join("")` of the mapped items, then `</ul>` |
| Pages.Tag | src/sample.tsx:344 | the `page` field that the dispatch reads: `top`, `mypage` or `ranking` |
| Pages.RenderPage | src/sample.tsx:344 | the generator picked by the page's tag, applied to the page |
| Pages.ListItems | src/sample.tsx:342 | `articles.map(...)` has one item per article, in order, item `i` being `<li>` + `articles[i]` + `</li>` |
| Pages.JoinEmptySeparatorAppend | src/sample.tsx:342 | `join("")` of two lists put together is the two joins put together |
| Pages.ItemsHtmlAppend | src/sample.tsx:342 | the items for `a + b` are the items for `a` followed by those for `b` |
| Pages.ItemsHtmlCons | src/sample.tsx:342 | the first article's item comes first in the list HTML |
| Pages.ItemsHtmlAt | src/sample.tsx:339-342 | article `i`'s item sits between the items of the articles before it and those after it |
| Pages.RankingShape | src/sample.tsx:339-344 | a ranking page is the fixed head, the items, then `</ul>`; no articles means no items |
| Pages.RankingEmpty | src/sample.tsx:339-342 | an empty ranking renders with no `<li>` |
| Pages.RenderTopAndMyPage | src/sample.tsx:337-338 | `top` renders exactly `<p>top page</p>` and `mypage` renders `<p>Hello, ` + userName + `!</p>` |
| Pages.ParseItem | src/sample.tsx:342 | a recognised item is `<li>` + name + `</li>` in front of the remainder, with no `<` in the name |
| Pages.ParseItems | src/sample.tsx:342 | whatever it accepts is exactly the item HTML of the names it returns |
| Pages.ParseItemCons | src/sample.tsx:342 | the item of a name without `<` is read back as that name and its remainder |
| Pages.ParseItemsRoundTrip | src/sample.tsx:339-342 | the item HTML of names without `<` reads back as those names, in order |
| Pages.ParsePage | src/sample.tsx:336-344 | whatever it accepts is exactly the rendering of the well-formed page it returns |
| Pages.ParseMyPageRoundTrip | src/sample.tsx:338 | the user page reads back as the user page with the same name |
| Pages.ParseRankingRoundTrip | src/sample.tsx:339-342 | for article names without `<`, a ranking page reads back as the same articles |
| Pages.RenderPageRoundTrip | src/sample.tsx:336-344 | for a page whose article names hold no `<` (`WellFormed`), the page, tag and payload, is read back from its HTML |
| Pages.RenderDistinguishesTags | src/sample.tsx:336-344 | any two pages with different tags render differently, whatever their payloads |
| Pages.RenderPageInjective | src/sample.tsx:344 | well-formed pages render alike if and only if they are equal, so pages with different tags never render alike |
| Pages.RankingAmbiguousNames | src/sample.tsx:342 | a name containing `</li><li>` renders like two articles, so the well-formedness condition is needed |

## Left out

- src/App.tsx is not part of this model: React components, `useState`/`useEffect` wiring, and the race between two `fetchImages(...).then(setUrls)` calls, where the last to resolve wins. That is event-loop behaviour.
- src/index.tsx (DOM mounting and the mock worker start) and src/mocks/handlers.ts (a fixed fixture returned by request interception) are host I/O and are not modelled.
- The `fetch`, `await` and `response.json()` steps of `fetchImages` (src/api.ts:4-8) are network and decoding I/O. Only the rewrite and the URL are modelled.
- The type-level exercises of src/sample.tsx have no runtime behaviour: `MyPartial`, `Func`, `getFoo2`, `PartiallyPartial`, `AtLeastOne`, the `PageGenerators` mapped type, `KeysOfType`, `OptionalKeys`, and the calls marked as type errors (among them `mapFromArray(data, "age")`).
- `EventDischarger.emit` has an empty body. `getFoo` and `useNumber` are untyped property reads.
- `useFetch` and the top-level hook calls are React hooks around an asynchronous fetch.
- The call `reducer(200, { type: "reset", amount: ... })` is ill-typed and returns `undefined`. The `Action` datatype cannot express it.
- DogApi.RequestUrl: the model stops at the URL string handed to `fetch`. The WHATWG URL parsing that `fetch` applies is not modelled: percent-encoding (a space becomes `%20`), `\` read as `/`, removal of `.` and `..` segments, and the split at `?` and `#` (the fragment is never sent). So `DogApi.RequestUrlRoundTrip` and `DogApi.RequestUrlInjective` are about the URL string, not about the request that goes over the network.
- Counter.Reducer: works on unbounded integers, not IEEE doubles, so overflow to infinity, rounding and NaN are not modelled.
- Indexing.MapFromArray: keys are compared with Dafny equality, not JavaScript's SameValueZero. That matters only for `NaN` and for object keys compared by reference.
- Records.GiveId: a Record is only an object's own enumerable string-keyed properties, with values undefined, integer, string or boolean. Not modelled: inherited properties (`giveId({}).toString` is the prototype's function, not `undefined`); the prototype itself, which spread drops, so a class instance loses its methods; non-enumerable own properties, which spread does not copy (`giveId([1, 2]).length` is `undefined`); symbol-keyed properties, which spread does copy; and null, object, array and function values.
- Records.GiveId: a JavaScript object also has a property order (an existing `id` keeps its place, a new one goes last). A record here is a `map`, which has no order.
- Strings.IndexOf: strings are sequences of characters, not of UTF-16 code units, so "length preserved" is in characters.
