# ¿Qué comemos hoy? — a verified model of the site's client-side logic

This project models, in Dafny, the four pieces of logic of the restaurant
site that are more than CRUD forms:

- **Cart state manager** (`CarritoContext.jsx`). The cart is an ordered
  sequence of lines. The model covers adding, removing, setting and clearing
  lines, the two derived sums (`calcularTotal`, `obtenerCantidadTotal`) and
  the WhatsApp order summary (`generarMensajeWhatsApp`, before
  percent-encoding). Modules: `Cart` (`cart.dfy`) and `OrderMessage`
  (`order_message.dfy`).
- **FAQ chat widget** (`ChatBot.jsx`). The model covers first-match keyword
  search (`findAnswer`) and the transcript transitions for sending a
  message, clicking a suggestion and resetting. Module: `ChatBot`
  (`chatbot.dfy`).
- **Menu page** (`Main.jsx`). The model covers grouping the price-sorted
  product rows by category name and choosing between the error, loading and
  menu views. Module: `Catalog` (`catalog.dfy`).
- **Banner rotator** (`Slice.jsx`). The model covers turning stored image
  paths into public storage URLs, and the index rotation. Module: `Banner`
  (`banner.dfy`).

Shared string helpers live in `Text` (`text.dfy`). They model the
JavaScript operations the site uses:

- decimal printing of integers;
- ASCII lower-casing;
- `trim`, with the ECMAScript white-space and line-terminator set;
- `split` on one character, with `join` as its inverse;
- `includes`;
- `startsWith` (and a matching `EndsWith`, used to read a message back).

`Option` and `Result` live in `Outcomes` (`outcomes.dfy`). The product
record lives in `Products` (`products.dfy`): the menu page fetches it and a
product card hands the same record to the cart.

Each operation is a pure function from the previous state to the next, in
the same way the `setState(prev => ...)` updaters are. Each one has a
partner:

- an independent reference definition, such as "the products of category
  k in list order" or "the non-empty paths, each converted";
- an inverse, such as reading the total back out of the message, or
  stripping the public prefix from a URL;
- or an invariant it preserves, such as unique ids with positive
  quantities, or an alternating transcript.

Where the two disagree, the model follows the code rather than the prose
description of the site:

- Notifications carry the Spanish texts of the code.
- On an existing line, `agregarAlCarrito` bumps every line with that id. The
  total then grows by the price stored in the cart line, not the price of
  the product passed in.
- A FAQ whose keyword list has an empty token (a trailing comma, for
  example) matches every question, because `"".includes` is always true.
- `resetChat` keeps whatever is in the input box.
- On the menu page, a thrown error with an empty message is falsy. The page
  then shows the (possibly stale) menu instead of an error.
- A product whose joined `Categoria` is null makes the `reduce` throw a
  `TypeError`, and the load ends in the error state. The message text
  `NullCategoriaMessage` is the V8 engine's wording; other engines word it
  differently.

## Model

| member | source | states |
|---|---|---|
| Text.IntToString | src/context/CarritoContext.jsx:101-113 | `${n}` of a whole number: one or more characters, a digit first exactly when n ≥ 0, a '-' then digits otherwise |
| Text.ParseNatToString | src/context/CarritoContext.jsx:113 | the printed decimal numeral of n reads back as n |
| Text.Lower | src/components/ChatBot/ChatBot.jsx:82 | lower-casing keeps the length and maps every character through ASCII lower-casing |
| Text.LowerIdempotent | src/components/ChatBot/ChatBot.jsx:82-85 | lower-casing twice is lower-casing once |
| Text.Trim | src/components/ChatBot/ChatBot.jsx:46 | the result is a slice of the input with only white space cut from each end, does not itself start or end with white space, and is empty exactly when the input is all white space |
| Text.Split | src/components/ChatBot/ChatBot.jsx:85 | `split(",")` always yields at least one part and no part contains the separator |
| Text.JoinSplit | src/components/ChatBot/ChatBot.jsx:85 | joining the parts of a split with the separator gives back the input |
| Text.SplitJoin | src/components/ChatBot/ChatBot.jsx:85 | splitting the join of separator-free parts gives back those parts, so split and join are inverse both ways |
| Text.SplitAtFirst | src/components/ChatBot/ChatBot.jsx:85 | the text before the first separator is the first part, followed by the parts of the rest |
| Text.SplitTrailingSeparator | src/components/ChatBot/ChatBot.jsx:85 | a trailing separator produces an empty last part |
| Text.IncludesIff | src/components/ChatBot/ChatBot.jsx:87 | the scan `includes` holds exactly when the needle occurs at some position |
| Text.IncludesEmpty | src/components/ChatBot/ChatBot.jsx:87 | the empty token occurs in every question |
| Cart.TotalAppend | src/context/CarritoContext.jsx:78-83 | the cart total is additive over concatenation of carts |
| Cart.CountAppend | src/context/CarritoContext.jsx:86-88 | the item count is additive over concatenation of carts |
| Cart.CalcularTotal | src/context/CarritoContext.jsx:78-83 | the left-to-right `reduce` from 0 returns Σ precio × cantidad |
| Cart.ObtenerCantidadTotal | src/context/CarritoContext.jsx:86-88 | the left-to-right `reduce` from 0 returns Σ cantidad |
| Cart.CountAtLeastLines | src/context/CarritoContext.jsx:86-88 | in a valid cart the item count is at least the number of lines |
| Cart.Add | src/context/CarritoContext.jsx:32-51 | with the id present, the cart keeps its length and every line with the id gains exactly one unit while all else stays as it was; otherwise it is the old cart with one quantity-1 line appended |
| Cart.AddExisting | src/context/CarritoContext.jsx:35-44 | a present id: only its line changes, gaining one unit; the cart stays valid; count +1; total + that line's stored price |
| Cart.AddFresh | src/context/CarritoContext.jsx:45-48 | a new id: earlier lines kept in order, a quantity-1 line appended; the cart stays valid; count +1; total + the product's price |
| Cart.AddValid | src/context/CarritoContext.jsx:32-51 | adding keeps unique ids and quantities ≥ 1, and always adds exactly one item |
| Cart.Notice | src/context/CarritoContext.jsx:37-47 | the "another unit" notice is chosen exactly when the cart does not grow, and names the product passed in |
| Cart.Remove | src/context/CarritoContext.jsx:54-56 | no line with the id is left, the cart does not grow, and an absent id leaves the cart unchanged |
| Cart.RemoveKeepsOthers | src/context/CarritoContext.jsx:54-56 | every line with another id survives, and every surviving line came from the cart and has another id |
| Cart.RemoveAppend | src/context/CarritoContext.jsx:55 | the filter distributes over concatenation, so order is kept |
| Cart.RemoveExisting | src/context/CarritoContext.jsx:54-56 | removing a present id deletes exactly its line, keeps the others in order, keeps validity, and lowers the sums by that line |
| Cart.SetQuantity | src/context/CarritoContext.jsx:65-69 | every line with the id gets exactly quantity n; every other field and every other line stays as it was, and the length is kept |
| Cart.Update | src/context/CarritoContext.jsx:59-70 | n ≤ 0 is exactly removal; n > 0 sets the quantity of the lines with the id to n and changes nothing else; an unknown id is a no-op |
| Cart.UpdateExisting | src/context/CarritoContext.jsx:59-70 | a positive quantity changes only that line's quantity, keeps validity, and moves the sums by the difference |
| Cart.UpdateValid | src/context/CarritoContext.jsx:59-70 | updating keeps unique ids and quantities ≥ 1 |
| Cart.Clear | src/context/CarritoContext.jsx:73-75 | the cleared cart is valid with total 0 and count 0 |
| Cart.AddTimesFromEmpty | src/context/CarritoContext.jsx:32-51 | k adds of one product to an empty cart give one line of quantity k, count k and total k × price |
| Cart.ScenarioTwoProducts | src/context/CarritoContext.jsx:32-88 | A(100) twice and B(50) once: 3 items for 250; after removing A, 1 item for 50 |
| OrderMessage.UnitWord | src/context/CarritoContext.jsx:101-103 | "unidades" exactly when the quantity exceeds 1, "unidad" otherwise |
| OrderMessage.Message | src/context/CarritoContext.jsx:91-116 | the message is empty exactly when the cart is empty, and otherwise starts with the fixed header |
| OrderMessage.BodyAppend | src/context/CarritoContext.jsx:99-109 | the blocks of two carts are the two bodies joined by one empty line: blocks come in cart order |
| OrderMessage.BodySingle | src/context/CarritoContext.jsx:99-105 | a one-line cart's body is exactly that line's block |
| OrderMessage.ReadPrinted | src/context/CarritoContext.jsx:113 | an integer printed after '$' reads back as itself |
| OrderMessage.MessageTotal | src/context/CarritoContext.jsx:111-116 | for a non-empty cart, the number printed before the fixed closing is exactly the cart total |
| ChatBot.Keywords | src/components/ChatBot/ChatBot.jsx:84-86 | a null or empty keyword column gives no tokens; otherwise the tokens hold no comma and, joined by commas, give back the lower-cased column |
| ChatBot.KeywordsDetermined | src/components/ChatBot/ChatBot.jsx:84-86 | any comma-free tokens that join back to the lower-cased column are exactly the keyword tokens |
| ChatBot.FirstTrue | src/components/ChatBot/ChatBot.jsx:83-88 | the scan of `find` stops at the first hit: every earlier position misses, and it runs off the end only when nothing hits |
| ChatBot.FirstIndex | src/components/ChatBot/ChatBot.jsx:83-88 | the position of the first FAQ that matches; every earlier FAQ misses, and it is the number of FAQs when none matches |
| ChatBot.FirstMatch | src/components/ChatBot/ChatBot.jsx:83-88 | no result exactly when no FAQ matches; otherwise the result is the first FAQ in list order that matches |
| ChatBot.FindAnswer | src/components/ChatBot/ChatBot.jsx:81-89 | the first FAQ with a trimmed token occurring in the lower-cased question; no match exactly when none has one |
| ChatBot.NoKeywordsNeverMatch | src/components/ChatBot/ChatBot.jsx:84-86 | a FAQ with a null or empty keyword column never matches |
| ChatBot.CaseInsensitive | src/components/ChatBot/ChatBot.jsx:82-85 | questions with the same lower-case form get the same answer |
| ChatBot.BlankTokenMatchesAll | src/components/ChatBot/ChatBot.jsx:85-87 | a token that is blank after trimming makes its FAQ match every question |
| ChatBot.TrailingCommaMatchesAll | src/components/ChatBot/ChatBot.jsx:85-87 | a keyword column ending in a comma matches every question |
| ChatBot.Reply | src/components/ChatBot/ChatBot.jsx:58-75 | the bot's text is the matched FAQ's answer, or the fallback when nothing matches |
| ChatBot.SendMessage | src/components/ChatBot/ChatBot.jsx:45-79 | blank input changes nothing; otherwise the input is appended verbatim as a user entry and then the reply as a bot entry, suggestions are hidden and the input is cleared |
| ChatBot.SuggestionClick | src/components/ChatBot/ChatBot.jsx:91-108 | the FAQ's question then its answer are appended; suggestions are hidden |
| ChatBot.ResetChat | src/components/ChatBot/ChatBot.jsx:116-125 | the transcript is the greeting alone and suggestions are shown again; the input is kept |
| ChatBot.Suggestions | src/components/ChatBot/ChatBot.jsx:186-198 | at most four buttons: the first four FAQs while suggestions are shown, none otherwise |
| ChatBot.InitialWellFormed | src/components/ChatBot/ChatBot.jsx:12-18 | the initial transcript is the greeting alone |
| ChatBot.AppendPairWellFormed | src/components/ChatBot/ChatBot.jsx:54-75 | appending a user entry and then a bot entry keeps the greeting-then-alternating shape |
| ChatBot.TransitionsWellFormed | src/components/ChatBot/ChatBot.jsx:45-125 | sending, clicking a suggestion and resetting all keep the transcript alternating |
| ChatBot.ResetRestores | src/components/ChatBot/ChatBot.jsx:116-125 | after any history, reset gives the initial state apart from the input box |
| ChatBot.TwoWordsAbsent | src/components/ChatBot/ChatBot.jsx:85-87 | a FAQ whose tokens are two lower-case words, neither starting with a letter of the question, does not match it |
| ChatBot.FirstWordPresent | src/components/ChatBot/ChatBot.jsx:85-87 | a FAQ whose first token is a lower-case word occurring in the question matches it |
| ChatBot.ExampleFaqsHold | src/components/ChatBot/ChatBot.jsx:84-86 | the keyword columns "horario,hora" and "precio,costo" give exactly the tokens horario, hora and precio, costo |
| ChatBot.ScenarioHoursMatch | src/components/ChatBot/ChatBot.jsx:81-89 | with FAQs "horario,hora" then "precio,costo", any question containing "horario" in any letter case gets the first |
| ChatBot.HoursQuestion | src/components/ChatBot/ChatBot.jsx:82-87 | "Cual es el horario", lower-cased, contains "horario" |
| ChatBot.ScenarioNoMatch | src/components/ChatBot/ChatBot.jsx:58-75 | with the same FAQs, a question without the letters h, p and c matches none and gets the fallback reply |
| ChatBot.UnrelatedQuestion | src/components/ChatBot/ChatBot.jsx:82 | "no entiendo nada", lower-cased, has none of the letters h, p and c |
| Catalog.Find | src/components/Main/Main.jsx:92 | the position of the first group with the key, or the number of groups when there is none |
| Catalog.GroupByCategory | src/components/Main/Main.jsx:90-97 | grouping succeeds exactly when every row has a category, and then its groups are described exactly by the first-seen/filter reference; otherwise it fails with the null-property message |
| Catalog.FilterUnseen | src/components/Main/Main.jsx:90-97 | a category never seen has no products |
| Catalog.FirstSeenOccurs | src/components/Main/Main.jsx:90-97 | every first-seen category has at least one product |
| Catalog.FirstSeenDistinct | src/components/Main/Main.jsx:92-94 | group keys are pairwise distinct |
| Catalog.StepExisting | src/components/Main/Main.jsx:92-95 | pushing onto an existing group keeps the grouping exactly described |
| Catalog.StepNew | src/components/Main/Main.jsx:92-95 | opening a new group at the end keeps the grouping exactly described |
| Catalog.StepDescribes | src/components/Main/Main.jsx:91-96 | one `reduce` step keeps the grouping exactly described |
| Catalog.GroupedDescribes | src/components/Main/Main.jsx:90-97 | the `reduce` gives one non-empty group per category, in first-seen order, each the rows of that category in price order, with sizes summing to the row count |
| Catalog.Load | src/components/Main/Main.jsx:68-106 | loading always ends; a failed query records its message and keeps the groups; categorised rows are grouped; a null category records the TypeError message and keeps the groups |
| Catalog.Render | src/components/Main/Main.jsx:120-131 | a non-empty error is shown first, then the loading indicator, and with no (or an empty) error and no loading exactly the grouped menu; an error view always carries the non-empty recorded message |
| Catalog.LoadSettles | src/components/Main/Main.jsx:62-106 | the page starts out loading and never shows the loading indicator once the query has settled |
| Catalog.LoadOutcome | src/components/Main/Main.jsx:99-131 | good rows show the grouped menu; a failure with a message shows it; a failure with an empty message shows the empty menu |
| Banner.BaseUrl | src/components/Slice/Slice.jsx:38-40 | an unset or empty base gives ""; otherwise exactly one trailing "/" is removed when present |
| Banner.Bucket | src/components/Slice/Slice.jsx:37 | the configured bucket, or "slice" when unset or empty |
| Banner.Path | src/components/Slice/Slice.jsx:45 | a null path reads as "" |
| Banner.ToUrl | src/components/Slice/Slice.jsx:43-52 | "http…" and "//…" are kept verbatim; "" is dropped; anything else is the public prefix followed by the path |
| Banner.ToUrlRelative | src/components/Slice/Slice.jsx:51 | a non-empty relative path becomes base + "/storage/v1/object/public/" + bucket + "/" + path |
| Banner.NormaliseAll | src/components/Slice/Slice.jsx:42-53 | the URL list is no longer than the rows and contains no empty string |
| Banner.NormaliseAllIsConvertedPaths | src/components/Slice/Slice.jsx:42-53 | the URL list is exactly the non-empty paths, in row order, each converted |
| Banner.NormaliseAllLength | src/components/Slice/Slice.jsx:42-53 | exactly the rows with a non-empty path survive |
| Banner.RelativeRoundTrip | src/components/Slice/Slice.jsx:51 | removing the public prefix from a relative path's URL gives back the path |
| Banner.Load | src/components/Slice/Slice.jsx:22-56 | an error leaves the state unchanged; otherwise the images are the converted non-empty paths (none for null data), and the index is kept |
| Banner.Tick | src/components/Slice/Slice.jsx:61-67 | with no images nothing changes; otherwise the index moves to the next position, wrapping to 0, and stays in range |
| Banner.TicksIndex | src/components/Slice/Slice.jsx:63-65 | after k ticks the index is (start + k) mod N |
| Banner.TicksInRange | src/components/Slice/Slice.jsx:63-65 | ticking keeps the index inside the image list |
| Banner.TicksReturn | src/components/Slice/Slice.jsx:63-65 | after N ticks the same image is shown again |
| Banner.NoImagesNoRotation | src/components/Slice/Slice.jsx:62 | with no images the index never moves |
| Banner.Render | src/components/Slice/Slice.jsx:70-83 | the placeholder exactly when there are no images; otherwise the image at the index, with alt text "Banner <index+1>" |
| Banner.ShownImageDefined | src/components/Slice/Slice.jsx:72-78 | after the load and any number of ticks, a shown slide always has a real image |
| Banner.ScenarioThreeImages | src/components/Slice/Slice.jsx:64 | three images rotate 0, 1, 2, 0 |
| Banner.ScenarioRelativeUrl | src/components/Slice/Slice.jsx:37-51 | "promo.png" under base "https://x.co/" and the default bucket becomes "https://x.co/storage/v1/object/public/slice/promo.png" |
| Banner.ScenarioAbsoluteAndEmpty | src/components/Slice/Slice.jsx:45-49 | "https://…" and "//…" paths are kept and an empty path is dropped |

## Left out

- Remote store I/O: the Supabase selects for products, FAQs and banners. Fetched rows are inputs, and a query outcome is a `Fetch` or `SliceFetch` value.
- The admin panel (`AdminPanel.jsx`) in full. It is form plumbing around network calls.
- localStorage persistence and JSON (de)serialisation of the cart. The model assumes a rehydrated cart satisfies `Cart.Valid`; the code does not check this.
- Timers are immediate steps: the 3-second notification dismissal, the 500 ms bot delay and the 7-second banner interval. So the transcript invariant relies on the bot reply arriving right after the user entry.
- Notification side effects inside the cart updater. `Cart.Notice` only says which variant applies, and `NoticeText` gives its text.
- `encodeURIComponent` (percent-encoding per section 2.1 of RFC 3986), building the wa.me link, and `window.open`. The model covers the message before encoding.
- JavaScript numbers. Prices and quantities are mathematical integers, so floating-point prices, exponent notation and `NaN` are not modelled.
- Unicode `toLowerCase`. `Text.Lower` folds only the ASCII letters A–Z.
- `Date.now()` message ids and React keys.
- Object key enumeration on the menu's `{}` accumulator. Category names are taken as ordinary string keys kept in insertion order. Integer-like names (which JavaScript enumerates first) and names such as `__proto__` or `constructor` (which collide with inherited properties) are not modelled.
- A row whose joined `Categoria` record exists but whose `categoria` field is null groups under the key "null" in the code. The model's category is either present as a string or absent as a whole record.
- Query results with `data` null and no error on the menu page. The model's `Rows` always carries a sequence.
- Pure rendering: `Carrito.jsx`, `Header.jsx`, `Footer.jsx`, `Notificacion.jsx`, `App.jsx`, `main.jsx`, the cart panel toggle (`toggleCarrito`/`mostrarCarrito`), and the chat window's open/close flag.
