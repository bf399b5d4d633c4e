# SmartPark parking session engine, in Dafny

This project models the parking session engine of the SmartPark front-desk application. The engine lives in the application component (`App.tsx`) and works over the entity types of `types.ts`. It keeps four in-memory collections:

- parking slots;
- registered cars;
- parking records (sessions);
- payments.

The operations are: registering a car, adding a slot, starting a parking session on a slot (directly, or through "Assign Parking", which picks the first free slot), checking a session out, editing a record and deleting one. The fee rule bills whole hours, rounded up, with a minimum of one hour. The read-only views are the filtered record table, the filtered car table, total revenue, and the daily report's rows and grand total.

Modules:

- `Types` (`types.dfy`): the entities of `types.ts`. `SlotStatus` has exactly two constructors, `Available` and `Occupied`. A record's status is `Active` or `Completed`. `exitTime`, `duration` and `amountPaid` are `Option`s. A record names its slot by slot number, and a payment names its record by `recordId`. Timestamps are integer milliseconds.
- `Sequences` (`sequences.dfy`): the array operations the engine is written with. These are `find`, `map` with a conditional replacement, `filter` and a summing `reduce`. Each is specified by its result. `Filter` returns an order-preserving subsequence with exactly the multiset of the elements that pass.
- `Billing` (`billing.dfy`): `calculateFee` on integer milliseconds, and its rounding lemmas.
- `Views` (`views.dfy`): the filters, total revenue, and the report's rows and grand total.
- `Engine` (`engine.dfy`): the updates that `find`/`map`/`filter` perform on the collections. It also holds the occupancy predicate with its conditional preservation lemmas, and the class `ParkingApp`. The class has the four collections as `seq` fields and one method per handler.
- `Scenario` (`scenario.dfy`): a client method that uses only the contracts of `ParkingApp`. It registers a car, adds a slot, parks, and checks out 90 minutes later, which bills 2 hours.

## Behaviour as written

The model follows the code, which is more permissive than a stricter design of the same system would be:

- `addCar` does not reject a duplicate plate. `addSlot` does not reject a duplicate slot number. Neither upper-cases its input; the form's input handlers do that.
- `startParking` looks a slot up by id (the first match). It rejects only an unknown or Occupied slot. It does not check that the plate is registered or already parked. It sets every slot with that id to Occupied.
- `exitParking` bills the record it finds whatever that record's status is. Only the table hides "Checkout" on Completed rows. The completed record replaces every record with the same id, and every slot with the record's slot number is released.
- A zero or negative span is billed one hour; it is not an error.
- `updateRecord` can change any field, including `id` and `slotNumber`.
- `deleteRecord` does not release the slot and does not remove payments.
- The grand total sums `amountPaid` over all records, not only over the Completed rows the report lists.

The occupancy condition is: a slot is Occupied exactly when an Active record names its slot number, and no two Active records share a slot number. The code does not maintain it in general. The model proves that it holds initially. It also proves that starting a session keeps it when slot ids and slot numbers are unique, and that checking out an Active record keeps it when record ids are unique. Editing a record or deleting one can break it, and the model shows an example of each.

## Model

| member | source | states |
|---|---|---|
| `Billing.CeilHours` | App.tsx:126 | the rounded-up hour count h satisfies (h−1)·3 600 000 < span ≤ h·3 600 000 |
| `Billing.CalculateFee` | App.tsx:122-131 | hours is the least whole number ≥ 1 whose hours cover exit − entry; amount = hours × hourly rate |
| `Billing.ExactHoursBillExactly` | App.tsx:126-129 | a stay of exactly k ≥ 1 hours bills k hours and k × rate |
| `Billing.OneMillisecondMoreBillsAnotherHour` | App.tsx:126-128 | k whole hours plus 1 ms bills k + 1 hours (1 ms bills 1 hour) |
| `Billing.ShortStayBillsOneHour` | App.tsx:125-129 | any span of at most one hour, including zero and negative spans, bills (1, rate) |
| `Billing.FeeIsMonotonic` | App.tsx:125-129 | a later exit never bills fewer hours or a smaller amount |
| `Sequences.FindIndex` | App.tsx:106 | `find`: the index of the first element passing the test; no index when none passes |
| `Sequences.MapWhere` | App.tsx:118 | the conditional `map`: same length; each passing element is replaced, the others are kept |
| `Sequences.Filter` | App.tsx:172 | `filter`: an order-preserving subsequence; every kept element passes; multiset equals the passing part of the input; all passing gives the input back |
| `Sequences.SumOf` | App.tsx:582 | the summing `reduce`: 0 for an empty list; with non-negative terms the sum is non-negative and at least every single term |
| `Sequences.SumOfAppend` | App.tsx:582 | the summing `reduce` of a concatenation is the sum of the two parts |
| `Sequences.SumOfFilter` | App.tsx:650-664 | filtering out elements that contribute 0 does not change the sum |
| `Views.ToLower` | App.tsx:179 | `toLowerCase` on ASCII: same length; every capital becomes its small letter, every other character is kept, and no capital remains |
| `Views.ToLowerIsIdempotent` | App.tsx:179 | lower-casing twice is lower-casing once |
| `Views.Contains` | App.tsx:179 | `includes`: the empty string is contained in every string, and a contained string is no longer than the text |
| `Views.ContainsAt` | App.tsx:179 | an occurrence of the search string at any position makes `includes` true |
| `Views.ContainsWitness` | App.tsx:179 | when `includes` is true, a position where the search string occurs exists |
| `Views.TextMatches` | App.tsx:179 | the case-insensitive search test: an empty search matches every text, and a matching search is no longer than the text |
| `Views.SearchIgnoresCase` | App.tsx:179 | lower-casing the text or the search first does not change the result |
| `Views.FilteredRecords` | App.tsx:177-199 | records in order; each kept one matches the plate text case-insensitively, passes the status filter, and has its entry day within the optional inclusive bounds; every matching record is kept with its multiplicity |
| `Views.ClearedFiltersShowAllRecords` | App.tsx:209-214 | with empty search, status All and no date bounds, the table is exactly the records |
| `Views.FilteredCars` | App.tsx:202-207 | cars in order whose plate or driver name contains the search text case-insensitively; every matching car is kept |
| `Views.EmptySearchShowsAllCars` | App.tsx:202-207 | an empty car search shows every car |
| `Views.TotalRevenue` | App.tsx:582 | 0 with no payments; with non-negative amounts the total is non-negative and at least every single payment |
| `Views.TotalRevenueAppend` | App.tsx:582 | appending a payment raises total revenue by exactly its amount |
| `Views.ReportRows` | App.tsx:650 | the report rows are the Completed records, in order, all of them and nothing else |
| `Views.GrandTotal` | App.tsx:664 | 0 with no records; with non-negative amounts the total is non-negative and at least every record's amountPaid |
| `Views.GrandTotalMatchesReportRows` | App.tsx:650-664 | the grand total (over all records) equals the sum over the listed rows when no non-Completed record carries an amount |
| `Engine.FindSlot` | App.tsx:106 | the first slot with the id, or none when no slot has it |
| `Engine.FindRecord` | App.tsx:134 | the first record with the id, or none when no record has it |
| `Engine.FirstAvailableSlot` | App.tsx:353 | the first Available slot in list order (all before it Occupied), or none when all are Occupied |
| `Engine.OccupySlot` | App.tsx:118 | every slot with the id becomes Occupied; every other slot is unchanged |
| `Engine.ReleaseSlots` | App.tsx:160 | every slot with the slot number becomes Available; every other slot is unchanged |
| `Engine.ReplaceRecords` | App.tsx:156 | every record with the id becomes the updated record; the others are unchanged |
| `Engine.RemoveRecords` | App.tsx:172 | the records without the id, in order, each with its multiplicity; none with the id remains |
| `Engine.RemoveRecordsById` | App.tsx:172 | with unique record ids, deletion removes exactly the record `find` locates |
| `Engine.Patched` | App.tsx:166 | `{ ...r, ...updatedData }`: each key present in the patch takes the patch's value, and each absent key keeps the record's |
| `Engine.AsPatch` | App.tsx:556 | the edited record as saved: patching any record with it yields the edited record on every required key and on each optional key that is set, keeps the record's value on each unset optional key, and saving a record unedited changes nothing |
| `Engine.PatchRecords` | App.tsx:165-166 | every record with the id is merged with the patch; the others are unchanged |
| `Engine.EditDialogChangesPlateAndSlot` | App.tsx:539-556 | saving the edit dialog changes exactly the plate and the slot number |
| `Engine.CheckOut` | App.tsx:138-146 | the completed record keeps id, plate, slot and entry; it is Completed and has exitTime; its duration and amountPaid are exactly `calculateFee`'s hours and amount: the least whole number of hours ≥ 1 that covers the stay, and that number × rate |
| `Engine.InitialSlots` | App.tsx:44-49 | the seeded slots: four, all Available, with distinct ids and slot numbers |
| `Engine.InitialStateMatches` | App.tsx:44-54 | the seeded slots with no records satisfy the occupancy condition |
| `Engine.FirstAvailableIsFound` | App.tsx:353-354 | with unique slot ids, looking up the first free slot by its id finds that slot, so "Assign Parking" succeeds |
| `Engine.StartParkingEffect` | App.tsx:105-118 | a start keeps the slot count and adds at most one record; when one is added, the slot was found and Available, the old records are a prefix, the new record carries the record id, plate, entry time, the slot's number and status Active, and every slot with the id is Occupied |
| `Engine.StartParkingKeepsOccupancy` | App.tsx:105-118 | starting an Active record on a free slot keeps occupancy consistent when slot ids and numbers are unique |
| `Engine.ExitParkingKeepsOccupancy` | App.tsx:133-160 | completing an Active record and releasing its slot number keeps occupancy consistent when record ids are unique |
| `Engine.UpdateRecordCanBreakOccupancy` | App.tsx:165-166 | moving an Active record to another slot number breaks occupancy consistency |
| `Engine.DeleteActiveRecordStrandsSlot` | App.tsx:170-174 | deleting the Active record leaves its slot Occupied with no record in it, and no slot is free |
| `Engine.ReleaseForDeletion` | App.tsx:170-174 | corrected deletion, slot by slot: same number of slots; each slot whose number is that of the found record, when that record is Active, becomes Available; every other slot is unchanged |
| `Engine.DeleteActiveRecordFreesSlot` | App.tsx:170-174 | on the stranding input of the finding, the corrected deletion makes `P-01` Available and "Assign Parking" finds it |
| `Engine.DeleteRecordReleasingKeepsOccupancy` | App.tsx:170-174 | corrected deletion keeps occupancy consistent when record ids are unique |
| `Engine.ParkingApp.constructor` | App.tsx:40-55 | the component starts from the stored collections |
| `Engine.ParkingApp.Seeded` | App.tsx:40-51 | a first run starts with the four seeded slots, no cars, records or payments, and occupancy consistent |
| `Engine.ParkingApp.AddCar` | App.tsx:85-91 | an empty plate or driver name changes nothing; otherwise exactly that car is appended; other collections are unchanged |
| `Engine.ParkingApp.AddSlot` | App.tsx:93-103 | an empty slot number changes nothing; otherwise one Available slot is appended; other collections are unchanged |
| `Engine.ParkingApp.StartParking` | App.tsx:105-120 | unknown or Occupied slot: nothing changes; otherwise one Active record with the plate, the slot's number, the entry time and no exit, duration or amount is appended, and only the slots with that id become Occupied; cars and payments are unchanged; occupancy is kept under unique ids and numbers |
| `Engine.ParkingApp.AssignParking` | App.tsx:352-356 | no free slot: nothing changes; otherwise parking starts on the id of the first Available slot, and with unique ids the car is placed in that slot |
| `Engine.ParkingApp.ExitParking` | App.tsx:133-163 | unknown id: nothing changes; otherwise the record becomes its checked-out form, whose amountPaid equals the new payment's amount; exactly one Payment with the record id, plate, fee amount and exit time is appended, total revenue rises by that amount, and every slot with the record's number is released; occupancy is kept for an Active record under unique record ids |
| `Engine.ParkingApp.UpdateRecord` | App.tsx:165-168 | records with the id are merged with the patch; slots, cars and payments are unchanged |
| `Engine.ParkingApp.DeleteRecord` | App.tsx:170-174 | the records with the id are removed in order; slots, cars and payments are unchanged |
| `Engine.ParkingApp.DeleteRecordReleasingSlot` | App.tsx:170-174 | corrected deletion: removes the records with the id, releases the found record's slot when it is Active, and keeps occupancy consistent under unique record ids |

## Left out

- Login and logout with the fixed credentials, and the stored user (App.tsx:66-83): authentication, not engine logic. The `User` type of types.ts is left out with them.
- Loading from and saving to browser local storage, and JSON encoding (App.tsx:33-64): persistence I/O. `ParkingApp`'s constructor takes the loaded collections, and `Seeded` is the first-run state.
- All rendering, `alert`, `window.confirm` and `window.print`: presentation. `DeleteRecord` is the confirmed case.
- The navigation layout (components/Layout.tsx): presentation only.
- Id generation with `Date.now()` and the current time: these are method parameters. No lemma assumes ids are unique unless it says so, because clock-based ids can collide.
- Date parsing, time zones and `setHours(0, 0, 0, 0)`: the caller supplies the day of a timestamp as `dayOf`, and a set date bound as a day number. An invalid date is not modelled.
- "Transactions Today" (App.tsx:588) needs a clock, and the averaged ticket (App.tsx:594) is a float with `toFixed`. Both are left out. So is locale formatting.
- Upper-casing of the plate and slot number: this happens in the form's input handlers (App.tsx:291, 381, 543, 551), not in the handlers that were modelled.
- `Billing.CalculateFee`: it divides integers exactly, where the source divides floating-point numbers before `Math.ceil`. The two agree for any realistic span. `HOURLY_RATE`'s value is not part of this model, so it is a natural-number parameter.
- `Views.FilteredRecords`: the case-insensitive match folds ASCII letters only, where `toLowerCase` maps all of Unicode. The same holds for `Views.FilteredCars`.
- `Engine.PatchRecords`: an absent optional key and one present as `undefined` are told apart. A required key present as `undefined` is not modelled.
- Amounts are integers. The summing `reduce` is modelled as an integer sum, so its left-to-right order does not matter.

## Findings

| source | as written | input that shows it | evidently intended | confidence | as-written member | corrected member |
|---|---|---|---|---|---|---|
| App.tsx:170-174 | `deleteRecord` removes a record without touching slots, even when the record is Active | slot `P-01` Occupied, one Active record `r1` on `P-01`; deleting `r1` leaves `P-01` Occupied with no record in it, and "Assign Parking" finds no free slot | deleting an Active record frees its slot | medium, not executed | `Engine.DeleteActiveRecordStrandsSlot` | `Engine.DeleteRecordReleasingKeepsOccupancy` |
