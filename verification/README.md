# lunch-eat-shen-mo in Dafny

A model of the business logic inside three React screens of a lunch
web app. It covers:

- **阿嬌滷味 ordering screen** (`src/LuweiOrderingApp.jsx`, with an older
  copy of the same logic in `src/App.jsx`). This is the shopping cart: adding
  and removing items, the cart total, and the free noodle offered from NT$70
  on. It also covers how a cart becomes a stored order: the order lines, the
  gift line and the condiment choices. A stored order turns back into a cart
  when it is re-ordered or edited. The "pick for me" button fills a cart at
  random up to a budget. The older screen's `handleLogin` sends the shop owner
  to the admin view.
- **Lunch picker** (`src/LunchPicker.jsx`). This covers the weekday 12:00–13:00
  lunch window and its `HH:MM` clock string, and the "open for lunch" test on
  a restaurant's opening hours. It also covers the price/distance filter
  panel, the metre label, and the tally of everyone's choices today. The
  wheel part is the spin guard, the winning index, and the reveal of the
  winner.
- **Particle screen** (`src/ParticleShaper.jsx`). This covers the hand-gesture
  decision table and the tracking of the current and last gesture. It also
  covers the air-drawing strokes, whose point buffers hold at most 1000
  points.

Randomness, the clock and the camera enter the model as inputs:

- Each `Math.random()` draw is a real number in [0, 1).
- The clock reading is (day, hour, minute).
- A hand is the outcome of its landmark tests: five "finger extended"
  booleans and a "thumb and index tips close" boolean.

The JavaScript cart object is an association list kept in the order
`Object.entries` lists the object's keys (section 10.1.11.1 of ECMA-262,
OrdinaryOwnPropertyKeys). Keys that are array indices, i.e. canonical decimal
numerals below 2^32 - 1, come first in ascending numeric order; every menu id
of `DEFAULT_MENU` ("1" to "39") is one. Other keys follow in the order they
were created. Assigning to a key that exists keeps its place, and `delete`
keeps the order of the remaining keys.

When the cart holds an id the menu does not list, `menu.find` returns
`undefined` and the order assembly throws on `item.name`. The model returns
the error `UnknownItem` for that case instead of an order.

Modules:

- `Wrappers`: `Option` and `Result`.
- `Text`: `toString`, `padStart`, `Number`, `split`, `startsWith`, `includes` and `trim`.
- `Seqs`: `Array.prototype.filter`, and a fact about inserting into a sequence.
- `Random`: `Math.floor(Math.random() * n)`.
- `Cart`, `Combo`, `Order`, `Login`: the ordering screen.
- `LunchTime`, `Restaurants`, `TodayStats`, `Wheel`: the lunch picker.
- `Gestures`, `AirDrawing`: the particle screen.

The cart, total, randomizer, `reOrder` and order-assembly code of
`src/App.jsx` is line for line the same as in `src/LuweiOrderingApp.jsx`, so
one Dafny member models both. The table cites each place at least once.

## Model

| member | source | states |
|---|---|---|
| Text.NatToString | src/LunchPicker.jsx:279 | `n.toString()` is a non-empty digit string without leading zeros whose decimal value is `n`; it is one character exactly when `n < 10` |
| Text.PadStart2 | src/LunchPicker.jsx:279 | `padStart(2, '0')` leaves strings of length 2 or more as they are and fills shorter ones with leading zeros up to length 2, keeping the original as the suffix |
| Text.ContainsWitness | src/LuweiOrderingApp.jsx:380 | `includes` holds exactly when the substring occurs at some position |
| Text.Split | src/LunchPicker.jsx:285-286 | `split(':')` gives at least one field, no field holds the separator, and joining the fields with it gives back the string |
| Text.SplitJoin | src/LunchPicker.jsx:285-286 | splitting a join of separator-free fields gives back exactly those fields |
| Text.Trim | src/App.jsx:213 | `trim()` is a piece of the string with only white space (or nothing) before and after it; the piece starts and ends with a non-space, and is empty exactly when every character is JavaScript white space |
| Seqs.Filter | src/LunchPicker.jsx:311-316 | `filter` keeps a subsequence in order: every kept element passes the test, every element that passes is kept, and as many come out as there are passing positions |
| Seqs.FilterMultiplicity | src/LunchPicker.jsx:311-316 | a value that passes the test occurs in the result exactly as often as in the input, repeats included |
| Seqs.FilterFilter | src/LunchPicker.jsx:310-317 | filtering by one test and then by another is filtering once by both |
| Random.PickIndex | src/LunchPicker.jsx:425 | `Math.floor(r * n)` for a draw in [0, 1) is an index below `n`, the integer part of `r * n` |
| Random.PickIndexFair | src/LuweiOrderingApp.jsx:497 | index `i` is picked exactly for the draws in [i/n, (i+1)/n), so every index gets an equal slice of the draws |
| Cart.JsOrderedIndexed | src/LuweiOrderingApp.jsx:303 | a cart is in `Object.entries` order exactly when no later key is one JavaScript lists before an earlier key |
| Cart.InsertPos | src/LuweiOrderingApp.jsx:259-260 | a new key goes in front of the first key JavaScript lists after it: every key before the position is not listed after the new key, the key at the position is |
| Cart.InsertKey | src/LuweiOrderingApp.jsx:259-260 | creating a key puts it at that position with the given quantity, leaves every other key in place with its quantity, and keeps keys distinct, in key order and positive |
| Cart.Add | src/LuweiOrderingApp.jsx:257-262 | `addToCart` raises the id's quantity by one (absent counts as 0) and changes no other quantity; an existing key keeps its place; a new key with quantity 1 is inserted where JavaScript lists it, which is the end unless it is an array index; a well-formed cart (distinct keys, JavaScript key order, quantities ≥ 1) stays well formed |
| Cart.ArrayIndexKeysAscending | src/LuweiOrderingApp.jsx:79-98 | menu ids are array-index keys, so adding "10" and then "2" lists "2" before "10" |
| Cart.Remove | src/LuweiOrderingApp.jsx:264-274 | `removeFromCart` decrements a quantity above 1; a quantity of 1 deletes the key; an absent id leaves the cart unchanged; other quantities do not change; a well-formed cart stays well formed (distinct keys, key order kept, every quantity at least 1) |
| Cart.RemovePositions | src/LuweiOrderingApp.jsx:267-271 | decrementing keeps every key in its place; `delete` of a key with quantity 1 takes out exactly that key's entry and leaves every other entry in its place |
| Cart.RemoveAdd | src/App.jsx:225-242 | removing an id just added gives back the original cart, key order included |
| Cart.Put | src/LuweiOrderingApp.jsx:459 | `newCart[id] = count` sets that quantity, changes no other, adds the id to the keys, and keeps keys distinct and in key order |
| Cart.PutPosition | src/LuweiOrderingApp.jsx:459 | assigning to an existing key keeps every key where it was; a new key is spliced in at its key-order position |
| Cart.PutAtEnd | src/App.jsx:345 | assigning a new key that JavaScript lists after every key already there appends it at the end |
| Cart.FindItem | src/LuweiOrderingApp.jsx:279 | `menu.find` returns a menu item with the id, and returns nothing exactly when no item has it |
| Cart.FindFirst | src/App.jsx:247 | `find` returns the first menu item carrying the id |
| Cart.TotalIsMenuSum | src/LuweiOrderingApp.jsx:276-283 | `calculateTotal` over the cart's keys equals the sum over the menu of price × quantity held; ids not on the menu add nothing |
| Cart.TotalAdd | src/App.jsx:225-251 | adding one unit raises the total by that item's price (by 0 for an id not on the menu) |
| Cart.TotalRemove | src/App.jsx:232-251 | removing one unit of an id in the cart lowers the total by its price; removing an absent id changes nothing |
| Cart.EligibilityKeptByAdd | src/LuweiOrderingApp.jsx:286 | once the total reaches the free-noodle threshold (70), adding items keeps it eligible |
| Combo.Affordable | src/LuweiOrderingApp.jsx:494 | the available items are exactly the purchasable items whose price fits the remaining budget |
| Combo.GenerateRandomCombo | src/LuweiOrderingApp.jsx:487-510 | the loop ends (each pick spends at least 1); the cart is well formed, costs at most the budget and holds only items priced above 0; with money left, no purchasable item fits the remainder; if nothing fits the budget at all, the cart is empty |
| Combo.AcceptCandidate | src/LuweiOrderingApp.jsx:497-504 | a candidate drawn from the available items always fits: it spends between 1 and the remaining budget and keeps spent = total(cart) ≤ budget |
| Combo.Finished | src/App.jsx:382-398 | when the loop stops, because the budget is met or the draw found no candidate, the budget is met or nothing purchasable fits what is left |
| Combo.NoneAffordable | src/LuweiOrderingApp.jsx:497-499 | an empty list of available items means no purchasable menu item fits the remainder |
| Order.EncodeCondiments | src/LuweiOrderingApp.jsx:330-335 | the stored condiments ("加"/"不加" toggles, chili level) restore to the very form they were written from |
| Order.GiftName | src/LuweiOrderingApp.jsx:314-316 | the gift line's name always carries the gift mark "贈送" |
| Order.CartLines | src/LuweiOrderingApp.jsx:303-311 | `Object.entries(cart).map(...)` succeeds exactly when every id is on the menu; it then gives one line per entry, in the cart's key order, with the menu's name and price and the cart's count, adding up to the total; otherwise it fails on an id of the cart that `find` misses |
| Order.LinesInKeyOrder | src/LuweiOrderingApp.jsx:403-411 | the lines of a well-formed cart list their ids in JavaScript's key order: no later id is listed before an earlier one |
| Order.OrderLinesFaithful | src/App.jsx:275-300 | the assembled lines are the cart's lines plus exactly one price-0 gift line when the total is ≥ 70 and a noodle is selected, and none otherwise; they add up to the cart total |
| Order.Submit | src/LuweiOrderingApp.jsx:296-337 | `handleFinalSubmit` refuses exactly an eligible order without a chosen noodle; a success records the user, the lines as above, the total of the cart, unpaid, and the encoded condiments |
| Order.Update | src/LuweiOrderingApp.jsx:400-451 | `handleUpdateOrder` succeeds exactly when every cart id is on the menu; it keeps the user and paid flag and rewrites lines, total and condiments from the edited cart |
| Order.ShowModal | src/LuweiOrderingApp.jsx:288-294 | the submit dialog stays closed exactly when the total is 0; an eligible order without a chosen noodle gets the first choice of the noodle list; an existing choice is kept, and so is the selection of an order below the threshold |
| Order.ShowModalThenSubmit | src/LuweiOrderingApp.jsx:288-300 | after the dialog has opened, submitting never fails for want of a noodle |
| Order.Rebuild | src/LuweiOrderingApp.jsx:455-464 | `reOrder` builds a cart with distinct keys listed in JavaScript's key order |
| Order.RebuildIds | src/LuweiOrderingApp.jsx:457-461 | the rebuilt cart holds exactly the ids of lines that are not gifts (no "贈送" in the name, price not 0) |
| Order.RebuildLastKept | src/App.jsx:340-350 | every id gets the count of the last kept line carrying it |
| Order.RebuildKept | src/App.jsx:342-347 | lines without gifts, without repeated ids and with ids already in JavaScript's key order are rebuilt into exactly one entry per line, in the lines' order |
| Order.RebuildSubmit | src/LuweiOrderingApp.jsx:303-321 | re-ordering a submitted order of paid items gives back the cart it was submitted from, with the gift dropped |
| Order.RebuildUpdate | src/LuweiOrderingApp.jsx:402-423 | an edit of paid items always succeeds, and re-ordering the edited order gives back the edited cart |
| Order.StartEdit | src/LuweiOrderingApp.jsx:377-398 | `startEditOrder` rebuilds the cart as `reOrder` does; a toggle is restored on exactly when its stored value is "加", the chili level is copied, and an order without condiments leaves the form as it was |
| Order.SubmitThenEdit | src/LuweiOrderingApp.jsx:386-395 | editing a freshly submitted order loads exactly the cart and the condiment choices it was submitted with |
| Login.HandleLogin | src/App.jsx:211-223 | a whitespace-only name changes nothing; any other name logs in, as admin (admin view) exactly when the untrimmed name starts with "阿嬌滷味", otherwise into the menu view |
| Login.LeadingSpaceIsNotAdmin | src/App.jsx:213-215 | the blank test trims but the prefix test does not, so " 阿嬌滷味" enters the menu view, not the admin view |
| LunchTime.GetCurrentTimeStatus | src/LunchPicker.jsx:267-281 | `isLunchTimeWindow` holds exactly on days 1..5 in hour 12 (minutes 720 to 779); `timeString` is two digits, ':', two digits, whose values are the hour and the minute |
| LunchTime.ParseNumber | src/LunchPicker.jsx:285-286 | `Number` of a field is a number exactly when the field is all digits, and that number is the field's decimal value |
| LunchTime.ClockRoundTrip | src/LunchPicker.jsx:279-287 | the zero-padded `HH:MM` string has the hour and the minute as its digit fields, and parses, through `split(':').map(Number)`, back to hour × 60 + minute |
| Restaurants.SharesLunchMinuteIff | src/LunchPicker.jsx:292 | for a non-empty interval, start < 780 and end > 720 holds exactly when some lunch minute lies in [start, end) |
| Restaurants.IsOpenForLunch | src/LunchPicker.jsx:283-293 | never open when not open on weekdays, on days outside 1..5, or when a time is NaN; otherwise open exactly when the start is before 13:00 and the end after 12:00 in minutes |
| Restaurants.OpenForLunchByClock | src/LunchPicker.jsx:285-292 | for well-formed `HH:MM` hours, open for lunch is the interval overlap test on hour × 60 + minute |
| Restaurants.PastMidnightNeverOpen | src/LunchPicker.jsx:287-292 | hours 11:00–01:00 count as closed at lunch, because the end is compared as a time of the same day |
| Restaurants.FilteredRestaurants | src/LunchPicker.jsx:310-317 | the list is an order-preserving subsequence of the restaurants; it holds exactly those open for lunch that match the price ("" matches any) and are within the distance (a NaN distance, which `parseInt` of an empty form field gives at src/LunchPicker.jsx:649, never is), as many as there are such positions; the two filters in a row equal one filter by both tests |
| Restaurants.FilteredMultiplicity | src/LunchPicker.jsx:310-317 | every candidate restaurant occurs in the list exactly as often as in the input |
| Restaurants.FormatDistance | src/LunchPicker.jsx:304-306 | below 1000 the label is the decimal distance without leading zeros followed by "m", with a minus sign for a negative distance; a NaN distance reads "NaNm" |
| TodayStats.Aggregate | src/LunchPicker.jsx:219-233 | each name appears once; its count and users are exactly the selections naming it, in order; its restaurant record is that of the first such selection; every selection is tallied; the counts add up to the number of selections |
| TodayStats.TallyCounted | src/LunchPicker.jsx:220-231 | tallying one more selection keeps every tally's count and user list equal to the selections naming it, the new one included |
| Wheel.Spin | src/LunchPicker.jsx:413-425 | `spinWheel` does nothing while spinning or with no candidates; a single candidate wins and is saved at once; otherwise the wheel spins with the winner cleared and an index below the number of candidates |
| Wheel.Finish | src/LunchPicker.jsx:441-446 | at the end of the animation, a candidate of the captured list wins and is saved, and the wheel stops |
| Wheel.SpinThenFinish | src/LunchPicker.jsx:413-446 | a spin on an idle wheel with candidates ends with exactly the candidate at `Math.floor(r * n)` winning and saved |
| Wheel.SpinFair | src/LunchPicker.jsx:425 | with n ≥ 2 candidates, candidate i wins for exactly the draws in [i/n, (i+1)/n) |
| Gestures.Detect | src/ParticleShaper.jsx:45-74 | 'open' exactly when at least 4 fingers are extended; 'fist' exactly when none; 'ok' exactly when the tips are close, middle and ring are up and fewer than 4 are up; 'peace', 'thumbsUp', 'pointing' exactly for their finger patterns; 'unknown' exactly when none of these apply |
| Gestures.LabelInjective | src/ParticleShaper.jsx:585 | two gestures have equal labels exactly when they are the same gesture |
| Gestures.Observe | src/ParticleShaper.jsx:584-587 | a gesture equal to the current one changes nothing; a different one becomes current and the old current becomes last |
| Gestures.ObserveIdempotent | src/ParticleShaper.jsx:584 | seeing the same gesture twice in a row is seeing it once |
| Gestures.ObserveAllFromInitial | src/ParticleShaper.jsx:278-279 | from 'unknown'/'unknown', after a run of frames the current gesture is the last frame's and the last gesture is the most recent different one seen ('unknown' if none) |
| Gestures.ObserveAllDistinguished | src/ParticleShaper.jsx:583-587 | current and last gesture always differ once any change has happened |
| AirDrawing.DrawPoint | src/ParticleShaper.jsx:669-706 | a tip with no current line starts a new stroke holding it; below 1000 points the point is appended; at 1000 the canvas is unchanged; earlier strokes are untouched and no stroke exceeds 1000 points |
| AirDrawing.EndStroke | src/ParticleShaper.jsx:707-710 | ending a stroke clears the current line and keeps every stroke |
| AirDrawing.Clear | src/ParticleShaper.jsx:1093-1099 | `clearDrawings` removes every stroke and the current line |
| AirDrawing.Frame | src/ParticleShaper.jsx:605-612 | a pointing hand draws (a line is current afterwards); any other gesture ends the line; the number of strokes grows by at most one and earlier strokes stay |
| AirDrawing.DrawAllNewStroke | src/ParticleShaper.jsx:695-706 | a stroke started from no current line keeps exactly the first 1000 points drawn, and earlier strokes stay as they were |

## Left out

- Firebase: anonymous auth, Firestore reads and writes, `onSnapshot` listeners, `serverTimestamp`. These are network and SDK calls. The `!user` and `!editingOrder` early returns guard on them and are left out too, as are the toasts and view switches after a write.
- `handleLogin` of `src/LuweiOrderingApp.jsx:226-255`: its Firestore user write, the `isLoggingIn` guard and the error toast are I/O. Its admin routing is the same as in `src/App.jsx`, which `Login.HandleLogin` models.
- The menu is a parameter. The screens use the constant `DEFAULT_MENU` and never change it.
- Combo.GenerateRandomCombo: requires unique menu ids, which `DEFAULT_MENU` has. With duplicate ids carrying different prices, `calculateTotal` would price every copy as the first, and the budget bound could fail.
- Combo.GenerateRandomCombo: the budget is a `nat`, because `handleRandomize` parses and checks it first. The 100-attempt counter is not modelled: every available item fits what is left, so the counter never rises above 0.
- Combo.GenerateRandomCombo: the randomizer's status message and `handleRandomize`'s `setTimeout` sequencing are UI timing.
- LunchTime.ParseNumber: `Number` is modelled on ASCII digit strings, with the empty field read as 0. Any other field is NaN. `Number`'s acceptance of surrounding white space, a sign, a decimal point, an exponent, the `0x`/`0o`/`0b` prefixes and `Infinity` is not modelled. Stored opening times are `HH:MM`, which use none of these.
- LunchTime.GetCurrentTimeStatus: takes the `Date` reading as (day, hour, minute) inputs. Time zones and the `Date` object are not modelled.
- Restaurants.FormatDistance: requires a distance below 1000 (or NaN, which fails the `>= 1000` test). The kilometre branch uses floating-point `toFixed(1)`.
- TodayStats.Aggregate: the tally is kept as a fresh key per name. In the source, `stats[restaurantName]` also finds members inherited from `Object.prototype`, so a restaurant named "constructor" or "toString" takes the increment branch and throws a TypeError at `.users.push`, and the panel is never updated. That failure is not modelled. The order in which JavaScript lists the tallies (array-index names first) is not modelled either, since the panel re-sorts them by count.
- The wheel's rotation angle, jitter, easing and canvas drawing are floating point and rendering. The second `Math.random()` draw (the angle offset) only moves the drawing, so it is left out.
- The today panel's ranking and rendering of the tallies, and date-string handling of the stored selections, are presentation.
- All Three.js and MediaPipe code is left out: the landmark geometry, palm position, rotation mapping, particle shapes and the summon effect. These are float numerics in foreign libraries. They enter the model only as the boolean hand tests and as abstract drawing points.
- AirDrawing.DrawPoint: the `!sceneRef.current` early return is not modelled, and neither is the conversion of the tip to scene coordinates.
- The hand-lost branch (`src/ParticleShaper.jsx:657-661`) ends the stroke through React state that may be stale. It is modelled only through `AirDrawing.EndStroke`.
- The scratch card, the home page, the toast component and the styling configuration are presentation.
- Order.Rebuild: for keys that are not array indices the model states only that they follow the array-index keys in an order consistent with insertion (a new one is appended, `Cart.PutAtEnd`); it does not state the order among them as a function of the lines. Every default menu id is an array index.
