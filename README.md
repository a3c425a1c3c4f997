# Blood Donor Availability System — a verified model

This project models, in Dafny, the rules of the Blood Donor Availability
System: an Express/Mongoose server through which requesters ask for blood,
donors book donations against open requests, hospitals keep an eight-counter
blood inventory and answer requests addressed to them, and a single admin
approves hospitals and reads statistics; and the React client whose forms,
dashboards and two-step dialogs drive that server.

## How the model is built

- `store.dfy` holds the database every handler shares: one `Database` class
  with a sequence per collection (users, donors, hospitals, admins, blood
  requests) in insertion order and the counter new ids are drawn from. Its
  `Valid` predicate collects what every handler keeps true: distinct ids,
  the unique indexes of the schemas, schema-valid documents, eight counters
  in every inventory, and at most one admin.
- The schemas (`request_schema.dfy`, `hospital_schema.dfy`,
  `donor_schema.dfy`, `user_schema.dfy`, `blood_groups.dfy`) are datatypes
  with their enums, defaults, setters (trim, lower/upper case) and
  validators.
- Each controller (`request_controller.dfy`, `hospital_controller.dfy`,
  `donor_controller.dfy`, `user_controller.dfy`, `admin_controller.dfy`)
  defines every handler twice: as a pure function from the old collections
  to the reply code and the new collections, and as a method that changes
  the `Database` in place and is proved to end in the state that function
  gives, touching no other collection. The properties are lemmas about the
  functions.
- Each client component is a module of the same name. Its state is a
  `Page` class whose methods are the component's handlers. Its decisions
  (masks, validators, filters, guards, chart data) are functions. Lemmas
  connect it to the server model, e.g. what a valid form makes the server
  store.
- Shared vocabulary: `common.dfy` covers JavaScript string and number
  behaviour (`trim`, `toLowerCase`, `parseInt`, `||` fallbacks, the regular
  expressions as character-class predicates, `filter`). `calendar.dfy`
  turns time values into UTC dates and gives `setMonth` arithmetic.
  `tally.dfy` counts and buckets. `forms.dfy` holds the error maps and the
  required-field loop. `otp.dfy` holds the six-digit reset code.
  `request_order.dfy` holds Mongo's sort on urgency and dates.

Time (`Date.now()`, `new Date()`), the caller's id (the JWT subject), the
random draw behind an OTP and whether an e-mail was delivered are
parameters of the operations that use them.

### Behaviour worth knowing

- The booking dialog counts elapsed days with `Math.ceil`
  (`BDAS/src/components/donors/DonateNow.jsx:75-78`), not by rounding down.
  A donor may therefore book one millisecond after `gap - 1` whole days
  (`DonateNowPage.RoundingUpBooksEarly`).
- `updateRequestStatus` checks only who is calling, never the current
  status, so any status can follow any other and cancelling twice is
  accepted (`RequestController.StatusUpdateAnyToAny`,
  `RequestController.CancelTwice`). `updateHospitalStatus` has no
  transition guard either.
- The dashboard's next-eligible date counts in calendar months and the
  booking dialog counts in days. The two screens disagree both ways
  (`DonorDashboardPage.DashboardAheadOfDialog`,
  `DonorDashboardPage.DialogAheadOfDashboard`).
- The forms' thresholds differ from each other. A 50 kg donor passes
  registration and the schema but not the profile page
  (`DonorProfilePage.FiftyKilograms`). An eleven-digit hospital phone
  passes registration and the schema but not the profile page
  (`HospitalProfilePage.ElevenDigitPhone`).
- The profile handlers fall back with `||`, which keeps the stored value
  only for the number 0 and the empty text: a weight or bed count sent as
  the text "0" is written as 0 (`Numbers.ZeroTextWrites`,
  `HospitalController.ProfileZeroBedsText`).
- After a successful booking the form state keeps its date and time, but
  the dialog's inputs are remounted empty: booking another request needs
  both typed again before the browser lets the form through
  (`DonateNowPage.Page.InitiateDonation`, `DonateNowPage.Page.BookingSubmit`).

## Model

| member | source | states |
|---|---|---|
| `BloodGroups.ParseLabelExact` | server/schemas/BloodRequestSchema.js:25-30 | the `bloodGroup` enum accepts exactly the eight labels, each parsing back to its own group |
| `BloodGroups.KeyOfLabelIsKey` | server/controllers/BloodRequest.Controller.js:311 | the two `replace` calls turn every label ("A+") into exactly that group's inventory key ("A_pos") |
| `BloodGroups.KeysDistinct` | server/schemas/HospitalSchema.js:97-106 | every group's key is one of the eight schema keys, and distinct groups have distinct keys and labels |
| `BloodGroups.InventoryKeysCovered` | server/schemas/HospitalSchema.js:97-106 | every schema key belongs to some blood group |
| `BloodGroups.KeyOfBadLabel` | server/controllers/BloodRequest.Controller.js:311-313 | the two `replace` calls yield one of the eight inventory keys only from a well-formed label or from a key itself, so a malformed group ("a+", "AB") finds no stock |
| `RequestSchema.ParseStatus` | server/schemas/BloodRequestSchema.js:72-76 | the status enum accepts exactly Pending, Fulfilled, Rejected, Cancelled and Scheduled, case-sensitively |
| `RequestSchema.ParseUrgency` | server/schemas/BloodRequestSchema.js:67-71 | the urgency enum accepts exactly critical, moderate and low |
| `RequestSchema.LoadedStatus` | server/schemas/BloodRequestSchema.js:72-76 | an absent status reads as the default Pending; a present one reads as itself |
| `RequestSchema.Create` | server/schemas/BloodRequestSchema.js:3-97 | creation succeeds iff the validators accept the draft; the stored request is valid, Pending, unmatched, untargeted unless a target is given, stamped `now`, with the group upper-cased |
| `RequestSchema.CreateDefaults` | server/schemas/BloodRequestSchema.js:31-64 | omitted units, urgency, doctor and phone default to 1, moderate, "" and "", and donorMessage to "" |
| `RequestSchema.CreateRejectsFewUnits` | server/schemas/BloodRequestSchema.js:31-35 | units below 1 are refused whatever else the draft holds |
| `RequestSchema.CreateNeedsRequiredFields` | server/schemas/BloodRequestSchema.js:5-53 | a missing patientName, age, gender, bloodGroup, hospitalName or hospitalAddress makes creation fail |
| `RequestSchema.CreateUppercasesGroup` | server/schemas/BloodRequestSchema.js:25-30 | "ab+" is accepted and stored as AB+ |
| `HospitalSchema.DefaultInventory` | server/schemas/HospitalSchema.js:97-106 | a fresh inventory has exactly the eight keys, each 0 |
| `HospitalSchema.DefaultStock` | server/schemas/HospitalSchema.js:97-106 | every blood group has stock 0 in a fresh inventory |
| `HospitalSchema.ShapedHasKey` | server/schemas/HospitalSchema.js:97-106 | an inventory with the eight schema keys has a counter for every group |
| `HospitalSchema.Create` | server/schemas/HospitalSchema.js:4-117 | a created hospital passes the validators, is pending, has the default inventory and cleared OTP fields, and stores the normalised e-mail, the phone, the trimmed licence and the password given |
| `HospitalSchema.CreateNeedsRequired` | server/schemas/HospitalSchema.js:4-75 | a missing required field makes registration fail |
| `HospitalSchema.CreatePhoneRule` | server/schemas/HospitalSchema.js:32-37 | a phone that is not 10 to 12 digits is refused |
| `HospitalSchema.CreateOwnershipRule` | server/schemas/HospitalSchema.js:16-20 | the ownership enum is case-sensitive: "government" is refused |
| `HospitalSchema.CreateDefaults` | server/schemas/HospitalSchema.js:38-84 | omitted optional fields default to "", 0 beds, no blood bank and no ambulance |
| `RequestController.NewRequest` | server/controllers/BloodRequest.Controller.js:10-32 | a request is created iff the schema accepts the body, and is then stored Pending, owned by the caller, unmatched and untargeted |
| `RequestController.NewRequestIgnoresControls` | server/controllers/BloodRequest.Controller.js:12-32 | status, requester, donor or hospital fields in the body have no effect on the stored request |
| `RequestController.CreateRequest` | server/controllers/BloodRequest.Controller.js:10-43 | 201 appends exactly the new request; 500 stores nothing; no other collection changes |
| `RequestController.UpdateRequestStatus` | server/controllers/BloodRequest.Controller.js:108-154 | the code, requests and donors after the call are those of the status-update function: 404, 401, the donor stamp, then the enum-checked save |
| `RequestController.StampDonor` | server/controllers/BloodRequest.Controller.js:127-142 | for "Fulfilled" and an existing recorded donor, only that donor's lastDonationDate becomes now; otherwise nothing changes |
| `RequestController.StatusUpdateNotFound` | server/controllers/BloodRequest.Controller.js:111-115 | an unknown id gives 404 and writes nothing |
| `RequestController.StatusUpdateUnauthorized` | server/controllers/BloodRequest.Controller.js:117-125 | a caller who is neither requester nor target hospital gets 401 and neither requests nor donors change |
| `RequestController.StatusUpdateAnyToAny` | server/controllers/BloodRequest.Controller.js:145-148 | for an authorised caller every enum status is accepted from every current status; only that request changes |
| `RequestController.StatusUpdateStampsDonor` | server/controllers/BloodRequest.Controller.js:128-137 | "Fulfilled" on a request with an existing recorded donor sets exactly that donor's lastDonationDate to now |
| `RequestController.StatusUpdateKeepsDonors` | server/controllers/BloodRequest.Controller.js:128 | any other status, or no recorded donor, leaves every donor unchanged |
| `RequestController.StatusUpdateRejectsUnknown` | server/controllers/BloodRequest.Controller.js:145-152 | a status outside the enum leaves requests and donors unchanged and answers 404, 401 or 500 |
| `RequestController.CancelTwice` | server/controllers/BloodRequest.Controller.js:145-148 | cancelling a cancelled request succeeds again and changes nothing |
| `RequestController.DeleteRequest` | server/controllers/BloodRequest.Controller.js:161-180 | the code and remaining requests are those of the deletion function; no other collection changes |
| `RequestController.DeletionOnlyByRequester` | server/controllers/BloodRequest.Controller.js:163-175 | deletion succeeds iff a request with the id is owned by the caller, then removes exactly that request; otherwise nothing changes |
| `RequestController.ScheduleDonation` | server/controllers/BloodRequest.Controller.js:211-276 | the code and requests are those of the scheduling function, whatever the e-mail outcome; no other collection changes |
| `RequestController.ScheduleNotFound` | server/controllers/BloodRequest.Controller.js:218-222 | an unknown id gives 404 and writes nothing |
| `RequestController.ScheduleBooks` | server/controllers/BloodRequest.Controller.js:224-237 | a non-pending request gets 400 and is unchanged; a pending one gets fulfilledBy = caller, Scheduled, the slot and the message together, other requests kept; 200 iff requester and donor accounts exist, else 500 after the save |
| `RequestController.ScheduleIgnoresEligibility` | server/controllers/BloodRequest.Controller.js:228-237 | the outcome depends only on whether the caller's donor record exists, never on its eligibility fields |
| `RequestController.Selected` | server/controllers/BloodRequest.Controller.js:53-56 | a filtered, sorted list holds exactly the matching requests, as many as match |
| `RequestController.UserRequests` | server/controllers/BloodRequest.Controller.js:50-62 | exactly the caller's requests, newest first, as many as the caller owns |
| `RequestController.AllRequests` | server/controllers/BloodRequest.Controller.js:69-81 | exactly the requests not stored as Cancelled, sorted by urgency string then newest first |
| `RequestController.MatchingRequests` | server/controllers/BloodRequest.Controller.js:181-210 | 404 iff the caller has no donor record; otherwise exactly the Pending requests of the donor's group, urgency-string order then newest, and count equals the list length |
| `RequestController.DonorHistory` | server/controllers/BloodRequest.Controller.js:277-290 | exactly the requests fulfilled by the caller, most recently updated first |
| `RequestController.BookingMovesRequest` | server/controllers/BloodRequest.Controller.js:194-237 | a booked request leaves every donor's matching list, stays in the general list and enters the booking donor's history |
| `RequestController.StatuslessRequest` | server/controllers/BloodRequest.Controller.js:194-226 | a request stored without status can be booked yet is never offered by the matching query |
| `RequestController.RequestedUnits` | server/controllers/BloodRequest.Controller.js:314 | the requested units, parsed with a fallback of 1 for a missing, unreadable or zero value, are never 0 |
| `RequestController.CreateHospitalRequest` | server/controllers/BloodRequest.Controller.js:291-348 | the code and requests are those of the direct-request function, whose stock refusal skips an object member's name; hospitals (so every inventory) and other collections are unchanged |
| `RequestController.DirectRequestCreated` | server/controllers/BloodRequest.Controller.js:299-337 | a 201 appends one Pending request owned by the caller, targeted at the named hospital, for the parsed units, and the mapped key read a number stock that the units did not exceed |
| `RequestController.Stock` | server/controllers/BloodRequest.Controller.js:313 | `inventory[key] \|\| 0` is the counter for a key present, no number exactly for an object member's name, and 0 otherwise |
| `RequestController.DirectObjectMemberFails` | server/controllers/BloodRequest.Controller.js:311-337 | a blood group whose key names an object member ("constructor") reads no number stock, so no unit count is refused for stock; the create then refuses the group and the answer is 500 with nothing stored |
| `BloodGroups.UpperLabelNoMember` | server/controllers/BloodRequest.Controller.js:311 | a text the request schema's upper-cased enum accepts never maps onto an object member's name |
| `BloodGroups.ObjectMembersNoCounters` | server/schemas/HospitalSchema.js:97-106 | no object member's name is an inventory counter |
| `RequestController.DirectStockOfLabel` | server/controllers/BloodRequest.Controller.js:311-313 | for a proper label the counter checked is that group's own |
| `RequestController.DirectLowerCaseRefused` | server/controllers/BloodRequest.Controller.js:311-321 | a lower-case "a+" finds no counter and is never created, though the schema would store "A+" |
| `RequestController.RequestedUnitsCases` | server/controllers/BloodRequest.Controller.js:314 | missing, empty, non-numeric and zero unit texts ask for 1; "3 bags" asks for 3 |
| `RequestController.DirectNegativeUnits` | server/controllers/BloodRequest.Controller.js:314-337 | a negative count passes the stock check but fails the schema minimum: nothing is created |
| `RequestController.MinusTwo` | server/controllers/BloodRequest.Controller.js:314 | the text "-2" asks for -2 units |
| `RequestOrder.RankIsStringOrder` | server/controllers/BloodRequest.Controller.js:199 | ranking urgencies agrees with comparing their stored names as strings |
| `RequestOrder.CriticalLowModerate` | server/controllers/BloodRequest.Controller.js:199 | ascending urgency order is critical, low, moderate |
| `RequestOrder.Sort` | server/controllers/BloodRequest.Controller.js:56 | the sort returns a sorted permutation of its input |
| `RequestOrder.SortedUrgencyAscends` | server/controllers/BloodRequest.Controller.js:199 | in an urgency-then-newest list urgency names never descend as strings, and equal urgencies are newest first |
| `DonorSchema.Create` | server/schemas/DonerSchema.js:4-78 | a created donor passes the validators, is available, has no OTP, keeps the given lastDonationDate (none by default), stores the upper-cased group, normalised e-mail, mobile and a weight of at least 45 |
| `DonorSchema.WeightThreshold` | server/schemas/DonerSchema.js:42-46 | weight 44 is refused and 45 accepted |
| `DonorSchema.CreateDefaults` | server/schemas/DonerSchema.js:47-70 | omitted fields default to no last donation, "no" medical answers and available |
| `DonorSchema.CreateMedicalEnum` | server/schemas/DonerSchema.js:51-60 | a medical answer outside "yes", "no", "" (such as "Yes") is refused |
| `DonorSchema.CreateMobileRule` | server/schemas/DonerSchema.js:21-26 | a mobile that is not exactly ten digits is refused |
| `DonorSchema.CreateSeesUpperGroup` | server/schemas/DonerSchema.js:36-41 | registration depends on the blood group only through its upper-cased form |
| `DonorSchema.CreateUppercasesGroup` | server/schemas/DonerSchema.js:36-41 | "o-" is stored as O-; "0-" is refused |
| `UserSchema.Create` | server/schemas/UserSchema.js:4-67 | a created user passes the validators, is at least 18, stores the normalised e-mail, the mobile and a pincode of six characters after trimming |
| `UserSchema.AgeThreshold` | server/schemas/UserSchema.js:10-14 | age 17 is refused and 18 accepted |
| `UserSchema.PincodeTrimmed` | server/schemas/UserSchema.js:52-58 | the stored pincode is the trimmed input |
| `UserSchema.PincodeLength` | server/schemas/UserSchema.js:52-58 | a pincode not six characters long after trimming is refused |
| `UserSchema.GenderEnum` | server/schemas/UserSchema.js:15-19 | a gender outside Male, Female, Other is refused, case-sensitively |
| `Common.ParseGender` | server/schemas/UserSchema.js:15-19 | the gender enum accepts exactly Male, Female and Other |
| `HospitalController.RegisterHospital` | server/controllers/Hospital.controller.js:17-84 | the code and hospitals are those of the registration function; no other collection changes |
| `HospitalController.RegistrationAppends` | server/controllers/Hospital.controller.js:27-65 | a refused registration stores nothing; a 201 appends one valid, pending hospital with zero stock and keeps e-mail, licence and phone unique |
| `HospitalController.RegistrationRefusesDuplicate` | server/controllers/Hospital.controller.js:27-34 | any stored hospital sharing the e-mail, licence or phone makes the reply 400 with nothing stored |
| `HospitalController.LoginSucceeds` | server/controllers/Hospital.controller.js:91-127 | login succeeds iff some hospital has that e-mail, is approved and has that password |
| `HospitalController.LoginStatusFirst` | server/controllers/Hospital.controller.js:102-107 | a hospital that is not approved gets 403 whatever password is sent |
| `HospitalController.RegisteredMustWait` | server/controllers/Hospital.controller.js:63-107 | a hospital that has just registered gets 403 at login |
| `HospitalController.MergeInventory` | server/controllers/Hospital.controller.js:197-202 | the merged inventory keeps the stored keys, takes the body's value for each key it sends and keeps the rest |
| `HospitalController.MergeProfile` | server/controllers/Hospital.controller.js:179-215 | the merge never changes id, e-mail, licence, ownership, approval status, OTP fields or the inventory's key set |
| `HospitalController.UpdateHospitalProfile` | server/controllers/Hospital.controller.js:173-233 | the code and hospitals are those of the profile-update function: 404, 500 when a truthy bed count does not cast, a validator or the phone index fails, else the merged document |
| `HospitalController.MergeProfileIdempotent` | server/controllers/Hospital.controller.js:179-215 | sending the same profile twice changes nothing the second time |
| `HospitalController.MergeInventoryIdempotent` | server/controllers/Hospital.controller.js:197-202 | merging the same stock update twice equals merging it once |
| `HospitalController.ProfileBlanksKeep` | server/controllers/Hospital.controller.js:180-183 | empty phone, emergency phone and password and a falsy bed count (the number 0 or "") keep the stored values |
| `HospitalController.ProfileZeroBedsText` | server/controllers/Hospital.controller.js:183 | a bed count sent as the text "0" is truthy and stores 0 beds, where the number 0 keeps the stored count |
| `HospitalController.ProfileInventoryMerge` | server/controllers/Hospital.controller.js:197-202 | each group's counter takes the body's value when sent and keeps its own otherwise; the eight keys remain |
| `HospitalController.ProfileUpdateKeeps` | server/controllers/Hospital.controller.js:173-233 | a 200 changes only the caller's document, which validates and keeps e-mail, approval and licence; any other reply changes nothing |
| `HospitalController.ResetTarget` | server/controllers/Hospital.controller.js:286-291 | the account found has the e-mail and a redeemable code; when none is found no account has both |
| `HospitalController.ForgotPassword` | server/controllers/Hospital.controller.js:234-275 | the code and hospitals are those of the forgot function: 404, a saved fresh code, or cleared fields and 500 when the e-mail fails |
| `HospitalController.ResetPassword` | server/controllers/Hospital.controller.js:282-311 | the code and hospitals are those of the reset function: 400 without a match, else the new password with both OTP fields cleared, 500 when it fails validation |
| `HospitalController.ForgotIssues` | server/controllers/Hospital.controller.js:244-270 | a delivered code is stored on the requested account only; a failed e-mail clears that account's fields and answers 500 |
| `HospitalController.ResetFinds` | server/controllers/Hospital.controller.js:287-295 | the reset finds the account with the e-mail exactly when its code is redeemable |
| `HospitalController.ForgotThenReset` | server/controllers/Hospital.controller.js:244-306 | a code re-entered within ten minutes with a valid password resets it, clears the code, and an approved hospital can then log in |
| `HospitalController.ResetNotReplayable` | server/controllers/Hospital.controller.js:300-304 | a code works once: replaying a successful reset answers 400 |
| `HospitalController.ResetExpired` | server/controllers/Hospital.controller.js:249-291 | a code sent back ten minutes or more after issue is refused |
| `HospitalController.ForgotUndeliveredClears` | server/controllers/Hospital.controller.js:263-270 | after a failed e-mail no code is redeemable for that account |
| `HospitalController.Adjust` | server/controllers/Hospital.controller.js:369-383 | remove never yields a negative count; set yields the parsed quantity whatever the current value; an unknown action keeps the current value |
| `HospitalController.InventoryUpdate` | server/controllers/Hospital.controller.js:354-397 | the collection keeps its length and is unchanged unless the reply is 200 and the key is an own counter |
| `HospitalController.NewStock` | server/controllers/Hospital.controller.js:369-383 | the handler's branches, with the repeated removal block, compute exactly the adjusted value |
| `HospitalController.UpdateInventory` | server/controllers/Hospital.controller.js:354-397 | the code and hospitals are those of the inventory-update function; no other collection changes |
| `HospitalController.AddThenRemove` | server/controllers/Hospital.controller.js:372-376 | adding then removing the same quantity restores a non-negative counter |
| `HospitalController.RemoveThenAddLoses` | server/controllers/Hospital.controller.js:372-376 | removing 5 from 2 gives 0, and adding 5 back gives 5, not 2 |
| `HospitalController.SetIgnoresCurrent` | server/controllers/Hospital.controller.js:377-378 | set ignores the current value and is idempotent |
| `HospitalController.InventoryUpdateWritesOneCounter` | server/controllers/Hospital.controller.js:365-387 | a 200 for a counter writes only that counter, to the adjusted value, and keeps the eight keys and every other field and hospital; a key that is neither a counter nor an inherited member gives 400; an inherited member such as `toString` passes the key check and saves the hospital unchanged (200, or 500 when it is invalid); any failure changes nothing |
| `HospitalController.InventoryUpdateAt` | server/controllers/Hospital.controller.js:365-387 | a 200 leaves either the old collection (an inherited member as key) or the old collection with the caller's counter at `key` replaced by the adjusted value |
| `HospitalController.InventoryNeedsKeySpelling` | server/controllers/Hospital.controller.js:362-367 | a label such as "A+" is not a key: 400 |
| `HospitalController.HospitalRequests` | server/controllers/Hospital.controller.js:398-407 | exactly the requests addressed to the caller, newest first |
| `HospitalController.DirectRequestReachesHospital` | server/controllers/BloodRequest.Controller.js:324-337 | a created direct request appears in the target hospital's list |
| `Otp.CodeFromDraw` | server/controllers/Hospital.controller.js:245 | every random draw gives a code in [100000, 999999] |
| `Otp.Issue` | server/controllers/Hospital.controller.js:244-249 | an issued code is six digits and expires ten minutes after now |
| `Otp.IssuedRedeemable` | server/controllers/Hospital.controller.js:287-291 | an issued code is accepted iff the same code is sent back strictly before expiry |
| `Otp.ClearedNeverRedeemable` | server/controllers/Hospital.controller.js:301-302 | cleared fields never match |
| `Otp.RedeemedCodeInRange` | server/controllers/Hospital.controller.js:245-249 | an accepted code is six digits and was sent before expiry |
| `DonorController.RegisterDonor` | server/controllers/Donor.controller.js:16-73 | the code and donors are those of the registration function; no other collection changes |
| `DonorController.RegistrationAppends` | server/controllers/Donor.controller.js:24-55 | a refused registration stores nothing; a 201 appends one valid, available donor and keeps e-mail and mobile unique |
| `DonorController.RegistrationEmailNormalised` | server/controllers/Donor.controller.js:24-29 | an e-mail that differs from a stored one only in case or surrounding blanks answers 400 and stores nothing |
| `DonorController.LoginSucceeds` | server/controllers/Donor.controller.js:80-105 | login succeeds iff some donor has that e-mail and password; eligibility plays no part |
| `DonorController.RegisteredCanLogin` | server/controllers/Donor.controller.js:42-99 | a donor who has just registered can log in with the registered e-mail and password |
| `DonorController.MergeProfile` | server/controllers/Donor.controller.js:150-178 | the merge never changes id, e-mail, birth date, gender, blood group or OTP fields |
| `DonorController.UpdateDonorProfile` | server/controllers/Donor.controller.js:146-197 | the code and donors are those of the profile-update function: 404, 500 when a truthy weight does not cast, a validator or the mobile index fails, else the merged document |
| `DonorController.MergeProfileIdempotent` | server/controllers/Donor.controller.js:150-178 | sending the same profile twice changes nothing the second time |
| `DonorController.ProfileWeightFloor` | server/controllers/Donor.controller.js:154-180 | a truthy weight (the text "0" included) that does not cast or casts below 45 is refused on update and nothing is written |
| `DonorController.ProfileBlanksKeep` | server/controllers/Donor.controller.js:152-178 | blank answers, mobile and password and a falsy weight (the number 0 or "") keep the stored values |
| `DonorController.ProfileUpdateKeeps` | server/controllers/Donor.controller.js:146-197 | a 200 changes only the caller's document, which validates, keeps e-mail and blood group and takes any last donation date sent; any other reply changes nothing |
| `DonorController.ForgotAsWrittenStoresNothing` | server/controllers/Donor.controller.js:198-239 | as written, asking for a code changes no donor, whatever the reply |
| `DonorController.ResetAsWrittenNeverMatches` | server/controllers/Donor.controller.js:251-259 | as written, with unknown filter paths kept, every reset answers 400 |
| `DonorController.ResetAsWrittenIgnoresCode` | server/controllers/Donor.controller.js:251-270 | as written, with unknown filter paths stripped, any code or none resets the password of a registered e-mail |
| `DonorController.ResetTarget` | server/controllers/Donor.controller.js:251-255 | corrected (see ## Findings): the donor found has the e-mail and a redeemable code; when none is found no donor has both |
| `DonorController.ForgotPassword` | server/controllers/Donor.controller.js:198-239 | corrected (see ## Findings): the code and donors are those of the forgot function: 404, a saved fresh code, or cleared fields and 500 when the e-mail fails |
| `DonorController.ResetPassword` | server/controllers/Donor.controller.js:246-275 | corrected (see ## Findings): the code and donors are those of the reset function: 400 without a match, else the new password with the code cleared, 500 when it fails validation |
| `DonorController.ForgotIssues` | server/controllers/Donor.controller.js:208-234 | corrected (see ## Findings): a delivered code is stored on the requested donor only; a failed e-mail clears that donor's fields and answers 500 |
| `DonorController.ResetFinds` | server/controllers/Donor.controller.js:251-259 | corrected (see ## Findings): the reset finds the donor with the e-mail exactly when its code is redeemable |
| `DonorController.ForgotThenReset` | server/controllers/Donor.controller.js:208-270 | the mailed code re-entered within ten minutes resets the password and the donor can log in with it; any other code answers 400 |
| `DonorController.ResetNotReplayable` | server/controllers/Donor.controller.js:262-268 | corrected (see ## Findings): a code works once: replaying a successful reset answers 400 |
| `UserController.RegisterUser` | server/controllers/User.Controller.js:17-62 | the code and users are those of the registration function; no other collection changes |
| `UserController.RegistrationAppends` | server/controllers/User.Controller.js:24-44 | a refused registration stores nothing; a 201 appends one valid user and keeps e-mail and mobile unique |
| `UserController.RegistrationRefusesTakenMobile` | server/controllers/User.Controller.js:24-29 | a mobile number already registered answers 400, whatever the e-mail |
| `UserController.LoginSucceeds` | server/controllers/User.Controller.js:69-93 | login succeeds iff some user has that e-mail and password |
| `UserController.Profile` | server/controllers/User.Controller.js:100-124 | 404 iff no user has the caller's id; otherwise 200 with that user's view |
| `UserController.MergeProfile` | server/controllers/User.Controller.js:137-147 | the merge never changes id, age, gender or e-mail |
| `UserController.UpdateUserProfile` | server/controllers/User.Controller.js:131-165 | the code and users are those of the profile-update function: 404, 500 on a failed validator or mobile index, else the merged document |
| `UserController.MergeProfileIdempotent` | server/controllers/User.Controller.js:137-147 | sending the same profile twice changes nothing the second time |
| `UserController.ProfileBlanksKeep` | server/controllers/User.Controller.js:137-147 | an all-blank body leaves a stored user as it is |
| `UserController.ProfilePincodeLength` | server/controllers/User.Controller.js:142-149 | a non-empty pincode that is not six characters once trimmed is refused and nothing is written |
| `UserController.ProfileUpdateKeeps` | server/controllers/User.Controller.js:131-165 | a 200 changes only the caller's document, which validates and keeps its identity; any other reply changes nothing |
| `AdminController.NewAdmin` | server/controllers/Admin.Controller.js:31-36 | a created admin is valid, has role "super-admin" and the normalised e-mail |
| `AdminController.RegisterAdmin` | server/controllers/Admin.Controller.js:17-52 | the code and admins are those of the registration function; no other collection changes |
| `AdminController.SingleAdmin` | server/controllers/Admin.Controller.js:22-28 | there is never more than one admin: once one exists every registration answers 403 and changes nothing |
| `AdminController.LoginSucceeds` | server/controllers/Admin.Controller.js:55-75 | with at most one admin, login succeeds iff the e-mail and password are that admin's |
| `AdminController.ResetTarget` | server/controllers/Admin.Controller.js:111-117 | the admin found has the e-mail and a redeemable code; when none is found no admin has both |
| `AdminController.ForgotPassword` | server/controllers/Admin.Controller.js:76-105 | the code and admins are those of the forgot function: 404, a saved fresh code, or cleared fields and 500 when the e-mail fails |
| `AdminController.ResetPassword` | server/controllers/Admin.Controller.js:108-128 | the code and admins are those of the reset function: 400 without a match, else the new password with the code cleared |
| `AdminController.ForgotThenReset` | server/controllers/Admin.Controller.js:83-122 | the mailed code resets the password within ten minutes, the admin can then log in, and the spent or any other code answers 400 |
| `AdminController.ForgotUndeliveredClears` | server/controllers/Admin.Controller.js:96-100 | after a failed e-mail the fields are cleared and every reset answers 400 |
| `AdminController.GroupIndex` | server/controllers/Admin.Controller.js:170 | each group has one position in the fixed series order |
| `AdminController.MonthlyRequests` | server/controllers/Admin.Controller.js:138-153 | twelve entries Jan..Dec, each the number of this year's requests created in that month, zero when none |
| `AdminController.BloodDistribution` | server/controllers/Admin.Controller.js:156-174 | eight entries in fixed group order, each the number of Fulfilled requests of that group, zero when none |
| `AdminController.StatsAddUp` | server/controllers/Admin.Controller.js:138-174 | the month series adds up to the requests created this year and the group series to the Fulfilled requests |
| `AdminController.OtherYearsIgnored` | server/controllers/Admin.Controller.js:141-143 | a request created in another year is counted in no month |
| `AdminController.DonorsWithStats` | server/controllers/Admin.Controller.js:194-219 | one row per donor, newest first (row i is the i-th donor from the end of store order), whose total is the number of Fulfilled requests that donor fulfilled |
| `AdminController.NewDonorFirst` | server/controllers/Admin.Controller.js:196 | a donor registered last heads the list, and the older rows follow unchanged |
| `AdminController.FulfilWrites` | server/controllers/BloodRequest.Controller.js:145-146 | marking an authorised request Fulfilled writes exactly that request, with status and time |
| `AdminController.FulfilmentCountsOnce` | server/controllers/Admin.Controller.js:201-205 | marking a donor's request Fulfilled raises that donor's total by one and nobody else's; a second time changes nothing |
| `AdminController.UpdateHospitalStatus` | server/controllers/Admin.Controller.js:235-247 | the code and hospitals are those of the status function: always 200, any supplied string stored on the hospital with that id |
| `AdminController.StatusAnyToAny` | server/controllers/Admin.Controller.js:237-242 | any string, in or outside the enum, replaces exactly that hospital's status |
| `AdminForgotPasswordPage.ResetRefusal` | BDAS/src/components/admin/AdminForgotPassword.jsx:48-50 | the reset form refuses exactly when the two passwords differ, with the mismatch message |
| `AdminForgotPasswordPage.SendForgot` | BDAS/src/components/admin/AdminForgotPassword.jsx:27-31 | the request reaches the admin forgot handler with the e-mail typed |
| `AdminForgotPasswordPage.SendReset` | BDAS/src/components/admin/AdminForgotPassword.jsx:54-58 | the request reaches the admin reset handler with the e-mail, the code cast to a number and the password typed |
| `AdminForgotPasswordPage.ShortPasswordRefusedByServer` | BDAS/src/components/admin/AdminForgotPassword.jsx:48-58 | a password under six characters, empty included, passes the page; the server then never succeeds and changes no admin |
| `AdminForgotPasswordPage.ResetStoresTyped` | BDAS/src/components/admin/AdminForgotPassword.jsx:48-62 | a successful reset from the page stores the password typed twice, of at least six characters, on the admin whose e-mail and live code matched, and spends the code |
| `AdminForgotPasswordPage.Page.HandleChange` | BDAS/src/components/admin/AdminForgotPassword.jsx:99-142 | an input on the current step stores the text typed and changes nothing else |
| `AdminForgotPasswordPage.Page.HandleSendOtp` | BDAS/src/components/admin/AdminForgotPassword.jsx:21-45 | nothing is sent iff the e-mail is empty or the e-mail input refuses it; otherwise the server's forgot handler runs, and only a success moves to step 2 |
| `AdminForgotPasswordPage.Page.Advance` | BDAS/src/components/admin/AdminForgotPassword.jsx:34-36 | a successful answer moves to step 2; any other keeps the step |
| `AdminForgotPasswordPage.Page.HandleReset` | BDAS/src/components/admin/AdminForgotPassword.jsx:48-72 | nothing is sent iff the number input refuses the code or the passwords differ; otherwise the server's reset handler runs with the code as `Number` reads it |
| `AdminForgotPasswordPage.Page.ResendOtp` | BDAS/src/components/admin/AdminForgotPassword.jsx:149 | "Resend OTP?" returns to step 1 keeping every typed value |
| `AdminForgotPasswordPage.OtpSpellings` | BDAS/src/components/admin/AdminForgotPassword.jsx:114-118 | a code typed with a zero fraction or in exponent form passes the number input and resets exactly as its plain digits do |
| `DonorForgotPasswordPage.ResetRefusal` | BDAS/src/components/donors/DonorForgotPassword.jsx:58-69 | the form goes out iff a code is typed, the passwords match and have at least six characters; the first failing check picks the message |
| `DonorForgotPasswordPage.SendForgot` | BDAS/src/components/donors/DonorForgotPassword.jsx:31-35 | corrected (see ## Findings): the request reaches the donor forgot handler with the e-mail typed |
| `DonorForgotPasswordPage.SendReset` | BDAS/src/components/donors/DonorForgotPassword.jsx:73-81 | corrected (see ## Findings): the request reaches the donor reset handler with the e-mail, the code cast to a number and the password typed |
| `DonorForgotPasswordPage.SentPasswordAsSchema` | BDAS/src/components/donors/DonorForgotPassword.jsx:62-69 | a password the page lets through matches its confirmation and meets the schema's six-character minimum |
| `DonorForgotPasswordPage.ResetStoresTyped` | BDAS/src/components/donors/DonorForgotPassword.jsx:58-86 | corrected (see ## Findings): a successful reset from the page stores the password typed on the one donor whose e-mail and live code matched, and spends the code |
| `DonorForgotPasswordPage.Page.HandleChange` | BDAS/src/components/donors/DonorForgotPassword.jsx:128-180 | an input on the current step stores the text typed and changes nothing else |
| `DonorForgotPasswordPage.Page.HandleSendOtp` | BDAS/src/components/donors/DonorForgotPassword.jsx:21-51 | nothing is sent iff the e-mail is empty or the e-mail input refuses it; otherwise the server's forgot handler runs, and only a success moves to step 2 |
| `DonorForgotPasswordPage.Page.Advance` | BDAS/src/components/donors/DonorForgotPassword.jsx:39-41 | a successful answer moves to step 2; any other keeps the step |
| `DonorForgotPasswordPage.Page.HandleReset` | BDAS/src/components/donors/DonorForgotPassword.jsx:54-99 | nothing is sent iff the number input refuses the code or the page's checks refuse the form; otherwise the server's reset handler runs with the step-1 e-mail and the code as `Number` reads it |
| `DonorForgotPasswordPage.Page.ChangeEmail` | BDAS/src/components/donors/DonorForgotPassword.jsx:191-194 | "Change Email?" returns to step 1 keeping every typed value |
| `LoginForm.Validate` | BDAS/src/components/user/UserLogin.jsx:23-35 | the map holds exactly the e-mail and password messages the sequential checks call for, and the form is valid iff the map has no key |
| `LoginForm.ValidExactly` | BDAS/src/components/hospitals/HospitalLogin.jsx:27-38 | the form goes out iff the e-mail passes the unanchored pattern and a password is typed |
| `LoginForm.FormEmailLogsIn` | BDAS/src/components/donors/DonorLogin.jsx:27 | every address the registration forms accept also passes the login pattern |
| `LoginForm.LoosePatternAllowsSpaces` | BDAS/src/components/user/UserLogin.jsx:27 | "a b@c.d" passes the login pattern though the registration pattern refuses it |
| `LoginForm.Page.HandleChange` | BDAS/src/components/user/UserLogin.jsx:18-21 | editing stores the value and writes an empty message for that field, keeping the others |
| `LoginForm.Page.HandleSubmit` | BDAS/src/components/user/UserLogin.jsx:38-51 | the messages of validate replace the shown ones, and the credentials are sent iff the e-mail passes and a password is typed |
| `DonateNowPage.ElapsedDays` | BDAS/src/components/donors/DonateNow.jsx:75-78 | the day count is the absolute gap in milliseconds divided by a day and rounded up |
| `DonateNowPage.DateCheckBooks` | BDAS/src/components/donors/DonateNow.jsx:69-88 | the date check books iff there is no last donation or the rounded-up days reach 120 for female donors and 90 otherwise; a deferral reports elapsed and missing days adding up to the gap |
| `DonateNowPage.RoundingUpBooksEarly` | BDAS/src/components/donors/DonateNow.jsx:78-82 | one millisecond past gap − 1 whole days already books; exactly gap − 1 days waits one more day |
| `DonateNowPage.MidnightOrder` | BDAS/src/components/donors/DonateNow.jsx:102-111 | comparing a date's start with today's midnight is comparing their day numbers |
| `DonateNowPage.BookingRule` | BDAS/src/components/donors/DonateNow.jsx:99-123 | with the browser's checks in front: a form is stopped exactly when the date or time is empty or the date is before today, so the handler's past-date refusal never shows; a later date goes out whatever the time, and today goes out iff the slot is at least one hour ahead |
| `DonateNowPage.HandlerRule` | BDAS/src/components/donors/DonateNow.jsx:99-123 | the handler alone: a date before today is refused whatever the time, a later date goes out whatever the time, today goes out iff the slot is at least one hour ahead, and an unreadable date passes |
| `DonateNowPage.WithoutRequest` | BDAS/src/components/donors/DonateNow.jsx:149 | the list keeps exactly the requests with another id |
| `DonateNowPage.RemovalKeepsOrder` | BDAS/src/components/donors/DonateNow.jsx:149 | with distinct ids exactly the booked request leaves the list and the others keep their order |
| `DonateNowPage.Page.Load` | BDAS/src/components/donors/DonateNow.jsx:31-56 | the list is the server's matching requests and the profile the caller's gender and last donation; a failed fetch keeps both |
| `DonateNowPage.Page.CheckEligibility` | BDAS/src/components/donors/DonateNow.jsx:69-88 | step and reason become those of the date check; nothing else changes |
| `DonateNowPage.Page.InitiateDonation` | BDAS/src/components/donors/DonateNow.jsx:58-67 | the dialog opens on the request; a female donor is asked about pregnancy first, anyone else gets the date check at once; the freshly mounted date and time inputs show nothing while the form state keeps its values |
| `DonateNowPage.Page.PregnancyAnswer` | BDAS/src/components/donors/DonateNow.jsx:90-97 | "yes" defers with the pregnancy reason; "no" runs the date check; the booking inputs mount empty |
| `DonateNowPage.Page.Edit` | BDAS/src/components/donors/DonateNow.jsx:164 | an edit stores exactly one booking field, in the form state and the input alike |
| `DonateNowPage.Page.CloseModal` | BDAS/src/components/donors/DonateNow.jsx:159-162 | closing hides the dialog and empties the booking form and its inputs |
| `DonateNowPage.Page.BookingSubmit` | BDAS/src/components/donors/DonateNow.jsx:99-157 | the outcome is that of the browser's checks then the handler's, on what the date and time inputs show (after a reopened dialog, empty until typed); a refused slot sends nothing; a sent one carries the form state, which then equals the inputs, to the server's scheduling; a success removes that request from the list and closes the dialog |
| `DonateNowPage.Page.Booked` | BDAS/src/components/donors/DonateNow.jsx:148-150 | a success removes the request from the list and closes the dialog; a failure changes nothing |
| `DonateNowPage.PostSchedule` | BDAS/src/components/donors/DonateNow.jsx:136-146 | the request reaches the server's scheduling handler with the form's date, time and comments |
| `HospitalRequestsPage.Visible` | BDAS/src/components/hospitals/HospitalRequests.jsx:88-92 | a tab shows exactly the requests whose status it lists: Pending, or Fulfilled, Rejected and Cancelled |
| `HospitalRequestsPage.TabsSplit` | BDAS/src/components/hospitals/HospitalRequests.jsx:88-92 | no request shows on both tabs, and a request shows on one iff it is not Scheduled |
| `HospitalRequestsPage.Buttons` | BDAS/src/components/hospitals/HospitalRequests.jsx:136-139 | the pending tab offers Reject and Fulfil, the history tab no action |
| `HospitalRequestsPage.DeductOnlyAfterStatus` | BDAS/src/components/hospitals/HospitalRequests.jsx:54-76 | the stock is touched iff the status update succeeded, the status is Fulfilled and the box is ticked; the status write is the server's status update |
| `HospitalRequestsPage.RejectKeepsStock` | BDAS/src/components/hospitals/HospitalRequests.jsx:66 | a rejection never sends a deduction and never changes any hospital |
| `HospitalRequestsPage.DeductRemovesUnits` | BDAS/src/components/hospitals/HospitalRequests.jsx:66-73 | a successful deduction lowers the request group's counter by its units, stopping at zero, and changes no other counter or hospital |
| `HospitalRequestsPage.RemovalLowersCounter` | server/controllers/Hospital.controller.js:374-385 | a successful "remove" of a count spelt in decimal lowers that counter by the count, stopping at zero, and changes no other counter or hospital |
| `HospitalRequestsPage.Submit` | BDAS/src/components/hospitals/HospitalRequests.jsx:62-73 | the store ends as the status update, then the removal when the status is Fulfilled and the box is ticked, leave it; the invariant of the store is kept |
| `HospitalRequestsPage.Page.Load` | BDAS/src/components/hospitals/HospitalRequests.jsx:29-43 | the list is the server's requests addressed to the hospital |
| `HospitalRequestsPage.Page.SetTab` | BDAS/src/components/hospitals/HospitalRequests.jsx:107-108 | the tab buttons switch the tab and change nothing else |
| `HospitalRequestsPage.Page.SetDeduct` | BDAS/src/components/hospitals/HospitalRequests.jsx:174-175 | the check box sets the deduct flag and nothing else |
| `HospitalRequestsPage.Page.InitiateAction` | BDAS/src/components/hospitals/HospitalRequests.jsx:47-51 | records the request's id, status, group and units, ticks the box again and opens the dialog |
| `HospitalRequestsPage.Page.ConfirmAction` | BDAS/src/components/hospitals/HospitalRequests.jsx:54-85 | closes the dialog; the store changes exactly as the status update, then the optional removal, prescribe; the list is refetched iff neither call failed |
| `UserHistoryPage.Populated` | server/controllers/BloodRequest.Controller.js:54 | a row carries its request and a donor exactly when the request names a donor that exists |
| `UserHistoryPage.History` | BDAS/src/components/user/UserHistory.jsx:31-46 | the history is the server's list of the caller's requests, newest first, each with its donor populated |
| `UserHistoryPage.FilteredExact` | BDAS/src/components/user/UserHistory.jsx:79-84 | a row is shown iff the lower-cased hospital name or blood group contains the lower-cased term and the status filter is "all" or matches without regard to case |
| `UserHistoryPage.StatusNamesDiffer` | BDAS/src/components/user/UserHistory.jsx:82 | two statuses compare equal without regard to case iff they are the same status |
| `UserHistoryPage.StatusOptionExact` | BDAS/src/components/user/UserHistory.jsx:116-122 | choosing a status in the select keeps exactly the rows with that status |
| `UserHistoryPage.RowActions` | BDAS/src/components/user/UserHistory.jsx:149-151 | a row offers Cancel iff its request is Pending, and no other action |
| `UserHistoryPage.DetailActions` | BDAS/src/components/user/UserHistory.jsx:194-216 | the detail dialog offers Fulfilled and Rejected iff the request is Scheduled with a known donor |
| `UserHistoryPage.ActionsExclusive` | BDAS/src/components/user/UserHistory.jsx:149-216 | no request is offered both a cancellation and a resolution |
| `UserHistoryPage.OfferedActionAccepted` | BDAS/src/components/user/UserHistory.jsx:51-71 | every action the page offers the requester is accepted by the server and sets that status |
| `UserHistoryPage.GuardOnlyOnPage` | BDAS/src/components/user/UserHistory.jsx:149 | a Fulfilled request shows no Cancel, yet the server accepts the requester's cancellation of it |
| `UserHistoryPage.RefetchShowsNewStatus` | BDAS/src/components/user/UserHistory.jsx:67-71 | after a confirmed offered action the refetched history shows that request with the new status |
| `UserHistoryPage.Page.Load` | BDAS/src/components/user/UserHistory.jsx:31-48 | the history becomes the server's list and loading ends |
| `UserHistoryPage.Page.ViewDetails` | BDAS/src/components/user/UserHistory.jsx:91-94 | opens the detail dialog on the row chosen |
| `UserHistoryPage.Page.InitiateStatusUpdate` | BDAS/src/components/user/UserHistory.jsx:51-54 | records the id and status and opens the confirmation; nothing is sent |
| `UserHistoryPage.Page.DismissConfirm` | BDAS/src/components/user/UserHistory.jsx:254 | closes the confirmation and sends nothing |
| `UserHistoryPage.Page.ExecuteStatusUpdate` | BDAS/src/components/user/UserHistory.jsx:57-76 | closes the confirmation and runs the server's status update; a success closes the details and refetches, a failure keeps the page |
| `UserHistoryPage.Page.Refresh` | BDAS/src/components/user/UserHistory.jsx:69-74 | a success closes the details and refetches the history; a failure keeps both |
| `UserHistoryPage.Send` | BDAS/src/components/user/UserHistory.jsx:67 | the PUT reaches the server's status update with the recorded status |
| `HospitalInventoryPage.BloodTypesAreGroups` | BDAS/src/components/hospitals/HospitalInventory.jsx:21-30 | the table lists the eight groups in schema order, each under its own key and label |
| `HospitalInventoryPage.Cards` | BDAS/src/components/hospitals/HospitalInventory.jsx:94-130 | one card per table row, in table order |
| `HospitalInventoryPage.CardRules` | BDAS/src/components/hospitals/HospitalInventory.jsx:95-127 | a card shows the counter (0 when absent), LOW STOCK iff below 5, minus enabled iff the count is not 0 and the card is not updating, plus enabled iff not updating |
| `HospitalInventoryPage.NegativeCountStaysRemovable` | BDAS/src/components/hospitals/HospitalInventory.jsx:119 | a negative counter shows LOW STOCK and keeps the minus button enabled |
| `HospitalInventoryPage.ClickMovesByOne` | BDAS/src/components/hospitals/HospitalInventory.jsx:56-62 | a successful click moves the group's counter up by one, or down by one stopping at zero |
| `HospitalInventoryPage.AdjustByOne` | BDAS/src/components/hospitals/HospitalInventory.jsx:58 | a quantity of one adds one, or removes one clamped at zero |
| `HospitalInventoryPage.SuccessKeepsCaller` | server/controllers/Hospital.controller.js:354-392 | a successful inventory update answers 200 and the caller's document is still found |
| `HospitalInventoryPage.SendUpdate` | BDAS/src/components/hospitals/HospitalInventory.jsx:56-62 | the PUT reaches the server's inventory update with one unit of the key and the action |
| `HospitalInventoryPage.Page.FetchInventory` | BDAS/src/components/hospitals/HospitalInventory.jsx:32-45 | the shown counters become the caller's stored inventory; a failed load keeps what was shown |
| `HospitalInventoryPage.Page.HandleUpdate` | BDAS/src/components/hospitals/HospitalInventory.jsx:50-72 | after the server's update the shown counters are the answered inventory on success and unchanged otherwise; the spinner clears either way |
| `HospitalInventoryPage.ShownAfterClick` | BDAS/src/components/hospitals/HospitalInventory.jsx:62-64 | after a successful click the other seven shown counters are as stored |
| `HospitalInventoryPage.ShownAfterUpdate` | server/controllers/Hospital.controller.js:385-391 | any written counter leaves the caller at its index and every other counter as stored |
| `BloodBankPage.FilteredExact` | BDAS/src/components/user/BloodBank.jsx:151-160 | a hospital is listed iff its lower-cased city or name contains the lower-cased term and the filter is All or its counter under the converted key is positive |
| `BloodBankPage.NoFilterShowsAll` | BDAS/src/components/user/BloodBank.jsx:151-160 | an empty search with All shows every hospital in the order sent |
| `BloodBankPage.LowerOfUpper` | BDAS/src/components/user/BloodBank.jsx:152-153 | lower-casing forgets an earlier upper-casing |
| `BloodBankPage.SearchIgnoresCase` | BDAS/src/components/user/BloodBank.jsx:152-153 | the search gives the same answer for the term upper-cased or lower-cased |
| `BloodBankPage.GroupFilter` | BDAS/src/components/user/BloodBank.jsx:155-158 | filtering by a group's label keeps a hospital iff that group's own counter is positive |
| `BloodBankPage.Badges` | BDAS/src/components/user/BloodBank.jsx:215-218 | eight badges in schema order, each with its counter, lit iff positive |
| `BloodBankPage.BadgeRoundTrip` | BDAS/src/components/user/BloodBank.jsx:156-216 | each badge shows its group's label, which converts back to the counter's key, and a badge is lit iff filtering by its label keeps the hospital |
| `BloodBankPage.SmallDigits` | BDAS/src/components/user/BloodBank.jsx:86-98 | at most three digits are worth under 1000, at most two under 100 |
| `BloodBankPage.MaskedBounds` | BDAS/src/components/user/BloodBank.jsx:86-98 | a masked form asks the server for 1 to 99 units and gives an age below 1000 |
| `BloodBankPage.SentToChosenHospital` | BDAS/src/components/user/BloodBank.jsx:120-127 | an accepted request is Pending, the caller's, addressed to the chosen hospital under its name and "address, city", for no more units than the number that hospital held of the group |
| `BloodBankPage.Post` | BDAS/src/components/user/BloodBank.jsx:120-127 | the POST reaches the server's direct-request handler with the form and the chosen hospital |
| `BloodBankPage.Page.Load` | BDAS/src/components/user/BloodBank.jsx:38-52 | the list becomes every stored hospital in store order |
| `BloodBankPage.Page.SetFilters` | BDAS/src/components/user/BloodBank.jsx:183-186 | the search box and the select set the two filters and nothing else |
| `BloodBankPage.Page.OpenRequestModal` | BDAS/src/components/user/BloodBank.jsx:55-67 | the dialog opens on the hospital; name, age and reason are cleared, units set to 1 and the group preselected from the filter, gender and urgency kept |
| `BloodBankPage.Page.CloseModal` | BDAS/src/components/user/BloodBank.jsx:69-72 | the dialog closes and forgets the hospital, the form kept |
| `BloodBankPage.Page.FormChange` | BDAS/src/components/user/BloodBank.jsx:75-104 | an edit the field's mask accepts stores the value; any other leaves the form as it was |
| `BloodBankPage.Page.Submit` | BDAS/src/components/user/BloodBank.jsx:107-147 | nothing is sent unless name, group and age are filled; otherwise the server's direct-request handler runs, and a success closes the dialog and resets the form |
| `BloodBankPage.Page.Finish` | BDAS/src/components/user/BloodBank.jsx:129-146 | a success closes the dialog and resets the form; a failure keeps them; the spinner stops either way |
| `RequestBloodPage.ChangeRules` | BDAS/src/components/user/RequestBlood.jsx:40-61 | an edit either stores exactly the typed value in its own field or changes nothing; unmasked fields always store it; the masks stay true |
| `RequestBloodPage.InitialMasked` | BDAS/src/components/user/RequestBlood.jsx:26-37 | the empty form satisfies the masks |
| `RequestBloodPage.PayloadOneUnit` | BDAS/src/components/user/RequestBlood.jsx:89-93 | whatever the units input holds, the body asks for one unit at the urgency picked |
| `RequestBloodPage.StoredAsPicked` | BDAS/src/components/user/RequestBlood.jsx:89-99 | a stored request from this page is Pending, the caller's, for one unit, at the urgency picked |
| `RequestBloodPage.BlankNamePassesGuard` | BDAS/src/components/user/RequestBlood.jsx:67 | a patient name of one space passes the guard and the mask, and the server then refuses the request |
| `RequestBloodPage.Post` | BDAS/src/components/user/RequestBlood.jsx:95-99 | the POST reaches the server's create handler with the body |
| `RequestBloodPage.Page.SetUrgency` | BDAS/src/components/user/RequestBlood.jsx:144-162 | an urgency button sets the urgency and nothing else |
| `RequestBloodPage.Page.HandleChange` | BDAS/src/components/user/RequestBlood.jsx:40-61 | the form becomes that of the masked edit |
| `RequestBloodPage.Page.HandleSubmit` | BDAS/src/components/user/RequestBlood.jsx:64-123 | nothing is sent unless the browser accepts the required inputs and the age and the four guarded fields are filled; otherwise the server's create handler runs on the age as `Number` reads it, and a success resets the form and the urgency |
| `RequestBloodPage.BrowserCoversGuard` | BDAS/src/components/user/RequestBlood.jsx:67-70 | the handler's guard never refuses a form the browser lets through, and such a form always sends an age |
| `RequestBloodPage.NegativeAgeStored` | BDAS/src/components/user/RequestBlood.jsx:209-213 | a minus sign and digits pass the age input, and an accepted request stores that negative age |
| `RequestBloodPage.Page.Finish` | BDAS/src/components/user/RequestBlood.jsx:101-124 | a success resets the form and the urgency, a failure keeps them; the spinner clears |
| `DonorDashboardPage.UpdatedMonth` | BDAS/src/components/donors/DonorDashboard.jsx:78-79 | the month of an entry's update is one of the twelve chart positions |
| `DonorDashboardPage.DashboardStats` | BDAS/src/components/donors/DonorDashboard.jsx:47-70 | donations count the Fulfilled history entries and lives saved are three per donation; without a last donation both dates are absent; with one, the last date is shown and a next date is shown exactly when the date three months on (four for female donors) is still ahead |
| `DonorDashboardPage.MonthIndexOfName` | BDAS/src/components/donors/DonorDashboard.jsx:74 | each month name is found back at its own position |
| `DonorDashboardPage.MonthNamesDistinct` | BDAS/src/components/donors/DonorDashboard.jsx:74 | the twelve month names are pairwise different |
| `DonorDashboardPage.MonthChart` | BDAS/src/components/donors/DonorDashboard.jsx:72-87 | twelve bars Jan..Dec, each holding the number of Fulfilled entries updated in that month |
| `DonorDashboardPage.ChartMatchesTotal` | BDAS/src/components/donors/DonorDashboard.jsx:47-87 | the chart adds up to the donations card |
| `DonorDashboardPage.ElapsedWholeDays` | BDAS/src/components/donors/DonateNow.jsx:75-78 | whole days after a donation, the booking dialog counts exactly those days |
| `DonorDashboardPage.FebruaryPlusThree` | BDAS/src/components/donors/DonorDashboard.jsx:57-59 | three months after the first of February of a common year is 89 days later |
| `DonorDashboardPage.JulyPlusThree` | BDAS/src/components/donors/DonorDashboard.jsx:57-59 | three months after the first of July is the first of October |
| `DonorDashboardPage.Verdicts` | BDAS/src/components/donors/DonorDashboard.jsx:55-62 | for a male donor, the dashboard shows a next date exactly when the month-based date is still ahead, while the dialog defers exactly when fewer than 90 days have passed |
| `DonorDashboardPage.DashboardAheadOfDialog` | BDAS/src/components/donors/DonorDashboard.jsx:55-62 | on the first of May after a donation on the first of February of a common year, the dashboard says available while the dialog defers one more day |
| `DonorDashboardPage.DialogAheadOfDashboard` | BDAS/src/components/donors/DonorDashboard.jsx:55-62 | 90 days after a donation on the first of July, the dialog lets the donor book while the dashboard still shows the first of October |
| `UserDashboardPage.Dashboard` | BDAS/src/components/user/UserDashboard.jsx:45-96 | the cards are the number of requests, the Pending and Fulfilled counts, lives impacted equal to Fulfilled, and the recent list is the first five requests |
| `UserDashboardPage.CardsWithinTotal` | BDAS/src/components/user/UserDashboard.jsx:45-47 | the Pending and Fulfilled cards never add up to more than the total |
| `UserDashboardPage.MonthActivity` | BDAS/src/components/user/UserDashboard.jsx:58-77 | one bar per month of this year that has a request, in first-seen order, with that month's count; the single 'No Data' bar when there is none |
| `UserDashboardPage.ActiveMonthsExact` | BDAS/src/components/user/UserDashboard.jsx:64-75 | a month has a bar exactly when a request of this year was created in it, and every bar is a month name |
| `UserDashboardPage.ActiveMonthsDistinct` | BDAS/src/components/user/UserDashboard.jsx:68-73 | no month gets two bars |
| `UserDashboardPage.StatusSeries` | BDAS/src/components/user/UserDashboard.jsx:80-85 | four counters, Pending, Fulfilled, Rejected and Cancelled, each counting the requests in that status |
| `UserDashboardPage.NonZeroMember` | BDAS/src/components/user/UserDashboard.jsx:88 | a slice is kept exactly when it was a counter with a positive count |
| `UserDashboardPage.StatusDistribution` | BDAS/src/components/user/UserDashboard.jsx:80-92 | the pie is the non-zero counters in their fixed order |
| `UserDashboardPage.BumpStatus` | BDAS/src/components/user/UserDashboard.jsx:81-85 | one more request tallied: the counter of its status goes up when it is a pie key, nothing else changes |
| `UserDashboardPage.NonZeroTotal` | BDAS/src/components/user/UserDashboard.jsx:88 | dropping zero slices keeps the total |
| `UserDashboardPage.StatusesPartition` | server/schemas/BloodRequestSchema.js:72-76 | the five status counts add up to the number of requests |
| `UserDashboardPage.PieLeavesOutScheduled` | BDAS/src/components/user/UserDashboard.jsx:80-92 | the pie covers every request except the Scheduled ones |
| `HospitalDashboardPage.StockChart` | BDAS/src/components/hospitals/HospitalDashboard.jsx:39-44 | eight bars in the fixed group order, each read from its own inventory key |
| `HospitalDashboardPage.SumValuesRemove` | BDAS/src/components/hospitals/HospitalDashboard.jsx:47 | the sum of the values loses exactly a key's value when that key goes, whatever order the values are listed in |
| `HospitalDashboardPage.SumAtIsSumValues` | BDAS/src/components/hospitals/HospitalDashboard.jsx:47 | summing over a duplicate-free key list that covers the inventory gives the sum of all its values |
| `HospitalDashboardPage.SumAtSameValues` | BDAS/src/components/hospitals/HospitalDashboard.jsx:47 | a sum over keys reads only those keys |
| `HospitalDashboardPage.Dashboard` | BDAS/src/components/hospitals/HospitalDashboard.jsx:36-62 | the chart, the total stock over the eight keys, the request counts and the five most recent requests |
| `HospitalDashboardPage.ChartMatchesTotal` | BDAS/src/components/hospitals/HospitalDashboard.jsx:39-47 | the bars add up to the total-stock card, which is the sum of every counter of the inventory |
| `HospitalDashboardPage.ChartSums` | BDAS/src/components/hospitals/HospitalDashboard.jsx:39-47 | the first n bars add up to the first n counters |
| `HospitalDashboardPage.KeysDistinctAll` | server/schemas/HospitalSchema.js:98-105 | the eight inventory keys are pairwise different |
| `HospitalDashboardPage.CardsWithinTotal` | BDAS/src/components/hospitals/HospitalDashboard.jsx:52-58 | the Pending and Fulfilled cards never add up to more than the request total |
| `DonorProfilePage.ChangeKeepsMasked` | BDAS/src/components/donors/DonorProfile.jsx:90-110 | an edit the masks let in keeps the name letters and spaces, and the mobile and weight digits of bounded length |
| `DonorProfilePage.ValidateForm` | BDAS/src/components/donors/DonorProfile.jsx:113-157 | the messages left are those of the five checks, and the verdict holds exactly when the form may be saved |
| `DonorProfilePage.CheckName` | BDAS/src/components/donors/DonorProfile.jsx:117-120 | a name that trims to nothing gets a message; otherwise the messages are unchanged |
| `DonorProfilePage.CheckMobile` | BDAS/src/components/donors/DonorProfile.jsx:122-125 | a mobile that is not exactly ten characters gets a message |
| `DonorProfilePage.CheckWeight` | BDAS/src/components/donors/DonorProfile.jsx:127-130 | an empty weight or one whose integer reading is at most 50 gets a message |
| `DonorProfilePage.CheckAge` | BDAS/src/components/donors/DonorProfile.jsx:132-147 | a missing date of birth, or an age under 18 on the given day, gets a message |
| `DonorProfilePage.CheckMedical` | BDAS/src/components/donors/DonorProfile.jsx:149-152 | a declared disease or surgery while marked available gets a message |
| `DonorProfilePage.ValidExactly` | BDAS/src/components/donors/DonorProfile.jsx:113-157 | no message is left exactly when the form may be saved |
| `DonorProfilePage.SavedLeavesNone` | BDAS/src/components/donors/DonorProfile.jsx:113-157 | a savable form leaves no message |
| `DonorProfilePage.NoneLeftSavable` | BDAS/src/components/donors/DonorProfile.jsx:113-157 | a form that leaves no message is savable |
| `DonorProfilePage.UnsentFields` | BDAS/src/components/donors/DonorProfile.jsx:176 | the date of birth, blood group, e-mail and gender the form holds change nothing the server's handler reads |
| `DonorProfilePage.SavedAsTyped` | BDAS/src/components/donors/DonorProfile.jsx:176 | a valid masked form is merged as typed: the name, mobile, weight value, medical answers and availability |
| `DonorProfilePage.SavableTyped` | BDAS/src/components/donors/DonorProfile.jsx:117-130 | a savable masked form has a name, a mobile and a weight of digits above 50 |
| `DonorProfilePage.MergeTyped` | server/controllers/Donor.controller.js:146-197 | filled fields of the body overwrite the stored donor's |
| `DonorProfilePage.SavableAccepted` | BDAS/src/components/donors/DonorProfile.jsx:113-157 | a valid donor updated from a valid form passes the schema's validators and is never left available with a declared disease or surgery |
| `DonorProfilePage.TypedValid` | server/schemas/DonerSchema.js:5-60 | a valid donor with a filled name, a ten-digit mobile, a weight at or above the schema minimum and yes/no answers stays valid |
| `DonorProfilePage.FiftyKilograms` | BDAS/src/components/donors/DonorProfile.jsx:127 | 50 kg passes the registration form and the schema, and this page refuses it |
| `DonorProfilePage.Send` | BDAS/src/components/donors/DonorProfile.jsx:176 | the PUT runs the server's profile handler; only the donors can change |
| `DonorProfilePage.Page.Edit` | BDAS/src/components/donors/DonorProfile.jsx:232 | edit mode is on and nothing else changes |
| `DonorProfilePage.Page.Cancel` | BDAS/src/components/donors/DonorProfile.jsx:335 | edit mode is off and the edits stay in the form |
| `DonorProfilePage.Page.HandleChange` | BDAS/src/components/donors/DonorProfile.jsx:78-111 | in edit mode, the field's message is blanked and the value stored only when the mask allows it, so a masked form stays masked |
| `DonorProfilePage.Page.HandleCheck` | BDAS/src/components/donors/DonorProfile.jsx:85-88 | in edit mode, the checkbox state is stored as it is and a masked form stays masked |
| `DonorProfilePage.Page.HandleSave` | BDAS/src/components/donors/DonorProfile.jsx:159-190 | an invalid form shows its messages and sends nothing; a valid one goes to the server's handler and a success leaves edit mode |
| `DonorProfilePage.Page.Check` | BDAS/src/components/donors/DonorProfile.jsx:155 | the shown messages become those of the validation |
| `DonorProfilePage.Page.Finish` | BDAS/src/components/donors/DonorProfile.jsx:178-189 | a success leaves edit mode, a failure keeps it |
| `DonorProfilePage.Loaded` | BDAS/src/components/donors/DonorProfile.jsx:53-64 | the form shows the stored donor: the texts and availability as stored, a gender and group that parse back to the stored ones, a date input that reads back as the stored birthday, an empty weight exactly for 0 and otherwise one that casts back to it, and `no` for empty medical answers |
| `DonorProfilePage.ReloadedSave` | BDAS/src/components/donors/DonorProfile.jsx:53-64 | saving a freshly loaded form unchanged leaves the donor as stored, except that the name is trimmed and empty medical answers become `no` |
| `DonorProfilePage.Page.Load` | BDAS/src/components/donors/DonorProfile.jsx:39-75 | a fetched donor replaces the form by its loaded view; a failed fetch keeps the form; edit mode and messages are kept |
| `DonorRegisterPage.RequiredFields` | BDAS/src/components/donors/DonorRegister.jsx:49-56 | the required-field loop marks exactly the empty fields of the list and passes exactly when all nine are typed |
| `DonorRegisterPage.Validate` | BDAS/src/components/donors/DonorRegister.jsx:44-102 | the messages left are those of the loop and the five checks after it, and the verdict holds exactly when the form is acceptable |
| `DonorRegisterPage.CheckMobile` | BDAS/src/components/donors/DonorRegister.jsx:59-64 | a typed mobile that is not ten digits gets the mobile message |
| `DonorRegisterPage.CheckEmail` | BDAS/src/components/donors/DonorRegister.jsx:66-70 | a typed e-mail the pattern refuses gets the e-mail message |
| `DonorRegisterPage.CheckWeight` | BDAS/src/components/donors/DonorRegister.jsx:72-76 | a typed weight whose integer reading is under 45 gets the weight message |
| `DonorRegisterPage.CheckAge` | BDAS/src/components/donors/DonorRegister.jsx:78-91 | a readable date of birth under 18 years before the given day gets the age message |
| `DonorRegisterPage.CheckPasswords` | BDAS/src/components/donors/DonorRegister.jsx:93-98 | two typed passwords that differ get the confirmation message |
| `DonorRegisterPage.ValidExactly` | BDAS/src/components/donors/DonorRegister.jsx:44-102 | no message is left exactly when the form is acceptable |
| `DonorRegisterPage.AcceptedLeavesNone` | BDAS/src/components/donors/DonorRegister.jsx:44-102 | an acceptable form leaves no message |
| `DonorRegisterPage.NoneLeftAccepted` | BDAS/src/components/donors/DonorRegister.jsx:44-102 | a form that leaves no message is acceptable |
| `DonorRegisterPage.WeightAsSchema` | BDAS/src/components/donors/DonorRegister.jsx:72 | for a weight of digits the form's test is the schema's 45 kg minimum |
| `DonorRegisterPage.AdultOnBirthday` | BDAS/src/components/donors/DonorRegister.jsx:78-88 | a readable date of birth passes exactly when the 18th birthday is on or before the given day |
| `DonorRegisterPage.UnreadableDobPasses` | BDAS/src/components/donors/DonorRegister.jsx:79-86 | a date of birth that is no date passes the age check |
| `DonorRegisterPage.Page.HandleChange` | BDAS/src/components/donors/DonorRegister.jsx:34-42 | the value is stored as typed and the field's message blanked |
| `DonorRegisterPage.Page.HandleSubmit` | BDAS/src/components/donors/DonorRegister.jsx:104-111 | a form the e-mail or weight input refuses fires nothing; otherwise the new messages are shown; the welcome alert and the home page follow exactly when the browser and the validators both accept, and nothing is sent to the server |
| `HospitalProfilePage.ChangeKeepsMasked` | BDAS/src/components/hospitals/HospitalProfile.jsx:73-89 | an edit the masks let in keeps the city and state letters and spaces and the four number fields digits |
| `HospitalProfilePage.ValidateForm` | BDAS/src/components/hospitals/HospitalProfile.jsx:93-124 | the messages left are those of the five checks, and the verdict holds exactly when the form may be saved |
| `HospitalProfilePage.CheckName` | BDAS/src/components/hospitals/HospitalProfile.jsx:97-100 | a name that trims to nothing gets a message |
| `HospitalProfilePage.CheckLicense` | BDAS/src/components/hospitals/HospitalProfile.jsx:102-105 | a licence number that trims to nothing gets a message |
| `HospitalProfilePage.CheckPhone` | BDAS/src/components/hospitals/HospitalProfile.jsx:107-110 | a typed phone that is not ten characters gets a message |
| `HospitalProfilePage.CheckEmergencyPhone` | BDAS/src/components/hospitals/HospitalProfile.jsx:112-115 | a typed emergency phone that is not ten characters gets a message |
| `HospitalProfilePage.CheckZipCode` | BDAS/src/components/hospitals/HospitalProfile.jsx:117-120 | a typed zip code that is not six characters gets a message |
| `HospitalProfilePage.ValidExactly` | BDAS/src/components/hospitals/HospitalProfile.jsx:93-124 | no message is left exactly when the form may be saved |
| `HospitalProfilePage.SavedLeavesNone` | BDAS/src/components/hospitals/HospitalProfile.jsx:93-124 | a savable form leaves no message |
| `HospitalProfilePage.NoneLeftSavable` | BDAS/src/components/hospitals/HospitalProfile.jsx:93-124 | a form that leaves no message is savable |
| `HospitalProfilePage.LicenseOwnershipKept` | server/controllers/Hospital.controller.js:179-193 | whatever licence number and ownership the form holds, the stored hospital keeps its own |
| `HospitalProfilePage.StaleInventoryRestored` | server/controllers/Hospital.controller.js:197-202 | a save writes back every counter of the inventory the page loaded, whatever the stored counters have become since |
| `HospitalProfilePage.SnapshotWins` | server/controllers/Hospital.controller.js:198-201 | spreading a snapshot with the same keys over an inventory yields the snapshot |
| `HospitalProfilePage.SavedName` | server/schemas/HospitalSchema.js:5-9 | a saved name is the typed one trimmed, and never empty |
| `HospitalProfilePage.EmptyNumbersKept` | BDAS/src/components/hospitals/HospitalProfile.jsx:107-120 | an empty number field passes the page and leaves the stored value as it was |
| `HospitalProfilePage.ElevenDigitPhone` | BDAS/src/components/hospitals/HospitalProfile.jsx:107 | eleven digits pass the registration form and the schema, and this page refuses them |
| `HospitalProfilePage.Send` | BDAS/src/components/hospitals/HospitalProfile.jsx:140 | the PUT runs the server's profile handler on the form as typed, the bed count as its text (so "0" stores 0 beds); only the hospitals can change |
| `HospitalProfilePage.Page.Edit` | BDAS/src/components/hospitals/HospitalProfile.jsx:211 | edit mode is on and nothing else changes |
| `HospitalProfilePage.Page.Cancel` | BDAS/src/components/hospitals/HospitalProfile.jsx:290 | edit mode is off and the edits stay in the form |
| `HospitalProfilePage.Page.HandleChange` | BDAS/src/components/hospitals/HospitalProfile.jsx:59-90 | in edit mode, the field's message is blanked and the value stored only when the mask allows it, so a masked form stays masked |
| `HospitalProfilePage.Page.HandleSwitch` | BDAS/src/components/hospitals/HospitalProfile.jsx:67-70 | in edit mode, the switch state is stored as it is and a masked form stays masked |
| `HospitalProfilePage.Page.HandleSave` | BDAS/src/components/hospitals/HospitalProfile.jsx:127-155 | an invalid form shows its messages and sends nothing; a valid one goes to the server's handler, the bed count as the typed text, and a success leaves edit mode |
| `HospitalProfilePage.Page.Check` | BDAS/src/components/hospitals/HospitalProfile.jsx:122 | the shown messages become those of the validation |
| `HospitalProfilePage.Page.Finish` | BDAS/src/components/hospitals/HospitalProfile.jsx:140-154 | a success leaves edit mode, a failure keeps it |
| `HospitalProfilePage.Loaded` | BDAS/src/components/hospitals/HospitalProfile.jsx:48 | the form is the stored hospital: every field as stored, the inventory snapshot included, and a bed count that casts back to the stored number |
| `HospitalProfilePage.ReloadedSave` | BDAS/src/components/hospitals/HospitalProfile.jsx:48 | saving a freshly loaded form unchanged leaves the hospital as stored, except that the name, website, address, city, state and zip code are trimmed |
| `HospitalProfilePage.Page.Load` | BDAS/src/components/hospitals/HospitalProfile.jsx:41-55 | a fetched hospital replaces the form by its loaded view; a failed fetch keeps the form; edit mode and messages are kept |
| `HospitalRegisterPage.RequiredFields` | BDAS/src/components/hospitals/HospitalRegister.jsx:49-56 | the required-field loop marks exactly the empty fields of the list and passes exactly when all eleven are typed |
| `HospitalRegisterPage.Validate` | BDAS/src/components/hospitals/HospitalRegister.jsx:44-81 | the messages left are those of the loop and the three checks after it, and the verdict holds exactly when the form is acceptable |
| `HospitalRegisterPage.CheckEmail` | BDAS/src/components/hospitals/HospitalRegister.jsx:59-63 | a typed e-mail the pattern refuses gets the e-mail message |
| `HospitalRegisterPage.CheckPhone` | BDAS/src/components/hospitals/HospitalRegister.jsx:66-69 | a typed phone that is not ten to twelve digits gets the phone message |
| `HospitalRegisterPage.CheckPasswords` | BDAS/src/components/hospitals/HospitalRegister.jsx:72-77 | two typed passwords that differ get the confirmation message |
| `HospitalRegisterPage.ValidExactly` | BDAS/src/components/hospitals/HospitalRegister.jsx:44-81 | no message is left exactly when the form is acceptable |
| `HospitalRegisterPage.AcceptedLeavesNone` | BDAS/src/components/hospitals/HospitalRegister.jsx:44-81 | an acceptable form leaves no message |
| `HospitalRegisterPage.NoneLeftAccepted` | BDAS/src/components/hospitals/HospitalRegister.jsx:44-81 | a form that leaves no message is acceptable |
| `HospitalRegisterPage.PhoneAsSchema` | server/schemas/HospitalSchema.js:32-37 | the form's phone rule and the schema's both accept exactly ten to twelve digits |
| `HospitalRegisterPage.Page.HandleChange` | BDAS/src/components/hospitals/HospitalRegister.jsx:35-41 | the value is stored as typed and the field's message blanked |
| `HospitalRegisterPage.Page.HandleSubmit` | BDAS/src/components/hospitals/HospitalRegister.jsx:83-90 | a form the e-mail or bed-count input refuses fires nothing; otherwise the new messages are shown; the "request sent" alert and the home page follow exactly when the browser and the validators both accept, and nothing is sent to the server |
| `UserProfilePage.ChangeKeepsMasked` | BDAS/src/components/user/UserProfile.jsx:105-133 | an edit the masks let in keeps the name and places letters and spaces, and the mobile, pincode and age digits of bounded length |
| `UserProfilePage.ValidateForm` | BDAS/src/components/user/UserProfile.jsx:137-184 | the messages left are those of the seven checks, and the verdict holds exactly when the form may be saved |
| `UserProfilePage.CheckName` | BDAS/src/components/user/UserProfile.jsx:142-145 | a name that trims to nothing gets a message |
| `UserProfilePage.CheckEmail` | BDAS/src/components/user/UserProfile.jsx:148-152 | an empty e-mail or one the pattern refuses gets a message |
| `UserProfilePage.CheckAge` | BDAS/src/components/user/UserProfile.jsx:155-158 | an empty age or one whose integer reading is under 18 gets a message |
| `UserProfilePage.CheckMobile` | BDAS/src/components/user/UserProfile.jsx:161-164 | a mobile that is not ten characters gets a message |
| `UserProfilePage.CheckPincode` | BDAS/src/components/user/UserProfile.jsx:167-170 | a pincode that is not six characters gets a message |
| `UserProfilePage.CheckCity` | BDAS/src/components/user/UserProfile.jsx:173-175 | a city that trims to nothing gets a message |
| `UserProfilePage.CheckState` | BDAS/src/components/user/UserProfile.jsx:177-179 | a state that trims to nothing gets a message |
| `UserProfilePage.SavedAsTyped` | BDAS/src/components/user/UserProfile.jsx:207 | a valid profile is merged as typed: name, mobile, places, pincode and, unless left empty, the address |
| `UserProfilePage.SavableTyped` | BDAS/src/components/user/UserProfile.jsx:142-179 | a savable form has every field the merge reads filled |
| `UserProfilePage.MergeTyped` | server/controllers/User.Controller.js:137-147 | filled fields of the body overwrite the stored account's |
| `UserProfilePage.AgeGenderUnsent` | server/controllers/User.Controller.js:137-147 | the age, gender and e-mail the form holds change nothing the server's handler reads |
| `UserProfilePage.DigitsUntrimmed` | server/schemas/UserSchema.js:52-57 | a value of digits alone is left as it is by the trimming setter |
| `UserProfilePage.SavableAccepted` | BDAS/src/components/user/UserProfile.jsx:137-184 | a valid account updated from a masked valid form passes every validator of the schema, provided the address it ends up with is not blank |
| `UserProfilePage.TypedValid` | server/schemas/UserSchema.js:5-58 | a valid account with filled name and places, a ten-digit mobile, a six-character pincode and a non-blank address stays valid |
| `UserProfilePage.BlankAddressRefused` | server/schemas/UserSchema.js:37-41 | an address of spaces passes the page and is refused by the schema, so the save fails |
| `UserProfilePage.Send` | BDAS/src/components/user/UserProfile.jsx:207 | the PUT runs the server's profile handler; only the users can change |
| `UserProfilePage.Page.Edit` | BDAS/src/components/user/UserProfile.jsx:276 | edit mode is on and nothing else changes |
| `UserProfilePage.Page.Cancel` | BDAS/src/components/user/UserProfile.jsx:419 | edit mode is off and the edits stay in the form |
| `UserProfilePage.Page.HandleChange` | BDAS/src/components/user/UserProfile.jsx:96-134 | in edit mode, the field's message is blanked and the value stored only when the mask allows it, so a masked form stays masked |
| `UserProfilePage.Page.HandleSave` | BDAS/src/components/user/UserProfile.jsx:187-229 | an invalid form shows its messages and sends nothing; a valid one goes to the server's handler and a success leaves edit mode |
| `UserProfilePage.Page.Check` | BDAS/src/components/user/UserProfile.jsx:182 | the shown messages become those of the validation |
| `UserProfilePage.Page.Finish` | BDAS/src/components/user/UserProfile.jsx:207-228 | a success leaves edit mode, a failure keeps it |
| `UserProfilePage.Loaded` | BDAS/src/components/user/UserProfile.jsx:62-73 | the form shows the account's profile: the texts as stored, a gender that parses back to the stored one, and an empty age exactly for 0 and otherwise one that casts back to it |
| `UserProfilePage.ReloadedSave` | BDAS/src/components/user/UserProfile.jsx:62-73 | saving a freshly loaded form unchanged leaves the account as stored, except that the name, address, city, state and pincode are trimmed |
| `UserProfilePage.Page.Load` | BDAS/src/components/user/UserProfile.jsx:44-93 | a signed-in caller's profile from the server replaces the form by its loaded view; otherwise the form is kept; edit mode and messages are kept |
| `UserRegisterPage.RequiredFields` | BDAS/src/components/user/UserRegister.jsx:85-90 | the loop over every field marks exactly the empty ones and passes exactly when all are typed |
| `UserRegisterPage.Validate` | BDAS/src/components/user/UserRegister.jsx:80-129 | the messages left are those of the loop and the five checks after it, and the verdict holds exactly when the form may go out |
| `UserRegisterPage.CheckAge` | BDAS/src/components/user/UserRegister.jsx:93-96 | a typed age whose integer reading is under 18 gets the age message |
| `UserRegisterPage.CheckMobile` | BDAS/src/components/user/UserRegister.jsx:98-101 | a typed mobile that is not ten characters gets the mobile message |
| `UserRegisterPage.CheckPincode` | BDAS/src/components/user/UserRegister.jsx:103-106 | a typed pincode that is not six characters gets the pincode message |
| `UserRegisterPage.CheckEmail` | BDAS/src/components/user/UserRegister.jsx:109-112 | a typed e-mail the pattern refuses gets the e-mail message |
| `UserRegisterPage.CheckPasswords` | BDAS/src/components/user/UserRegister.jsx:114-119 | two typed passwords that differ get the confirmation message |
| `UserRegisterPage.ValidExactly` | BDAS/src/components/user/UserRegister.jsx:80-129 | no message is left exactly when the form may go out |
| `UserRegisterPage.AcceptedLeavesNone` | BDAS/src/components/user/UserRegister.jsx:80-129 | an acceptable form leaves no message |
| `UserRegisterPage.NoneLeftAccepted` | BDAS/src/components/user/UserRegister.jsx:80-129 | a form that leaves no message is acceptable |
| `UserRegisterPage.AcceptedMeetsSchema` | server/schemas/UserSchema.js:10-58 | a masked form that goes out has an adult age, a ten-digit mobile and a six-digit pincode, as the schema asks |
| `UserRegisterPage.ShortPasswordGoesOut` | BDAS/src/components/user/UserRegister.jsx:114-119 | a one-character password goes out: the form never checks the schema's six-character minimum |
| `UserRegisterPage.Page.HandleChange` | BDAS/src/components/user/UserRegister.jsx:37-77 | the field's message is blanked and the value stored only when the mask allows it |
| `UserRegisterPage.Page.HandleSubmit` | BDAS/src/components/user/UserRegister.jsx:131-136 | a form the e-mail input refuses fires nothing; otherwise the new messages are shown, and the form goes out exactly when the browser and the validators both accept |
| `Calendar.DateRoundTrip` | BDAS/src/components/donors/DonateNow.jsx:102 | day numbers and valid calendar dates correspond one to one |
| `Calendar.MidnightSameDate` | BDAS/src/components/donors/DonateNow.jsx:103-104 | setting the time to midnight keeps the date |
| `Calendar.StartOfDate` | BDAS/src/components/donors/DonateNow.jsx:102 | a date input read as a date falls on that date |
| `Calendar.AddMonthsKeepsDay` | BDAS/src/components/donors/DonorDashboard.jsx:58-59 | when the target month has the day, adding months keeps the day and the time of day |
| `Calendar.JanuaryOverflow` | BDAS/src/components/donors/DonorDashboard.jsx:59 | the 31st of January plus one month, in a common year, rolls over to the 3rd of March |
| `Calendar.AgeAtLeast` | BDAS/src/components/donors/DonorRegister.jsx:78-86 | the age computed from the year, month and day is at least n exactly when the n-th birthday is on or before today |
| `Tally.Buckets` | server/controllers/Admin.Controller.js:138-174 | one zero-filled counter per bucket, each counting the elements that fall into it |
| `Tally.BucketsSum` | server/controllers/Admin.Controller.js:138-174 | the buckets together hold every counted element once |
| `Tally.CountByKey` | BDAS/src/components/user/UserDashboard.jsx:62-73 | the keys in the order they were first set, and a counter for exactly those keys with the number of elements carrying each |
| `Forms.Cleared` | BDAS/src/components/donors/DonorRegister.jsx:38-40 | a field showing a message has it blanked; every other entry is left alone |
| `Forms.RequireAll` | BDAS/src/components/donors/DonorRegister.jsx:49-56 | every empty value, and only those, gets the required message; the flag stays set exactly when no field is empty |
| `Forms.DateInput` | BDAS/src/components/donors/DonorRegister.jsx:80 | a date input that reads as a date gives a valid calendar date |
| `Forms.IsoDayReadsBack` | BDAS/src/components/donors/DonorProfile.jsx:58 | for years 0 to 9999 the date part of `toISOString` is a date input that reads back as the same UTC date |
| `Common.Trim` | server/schemas/UserSchema.js:8 | the trimmed text starts and ends with no white space and is no longer than the input |
| `Common.TrimIdempotent` | server/schemas/UserSchema.js:8 | trimming twice is trimming once |
| `Common.BlankTrim` | BDAS/src/components/user/UserProfile.jsx:142 | a text trims to nothing exactly when it is all white space |
| `Common.ToLowerIdempotent` | server/schemas/DonerSchema.js:14 | lower-casing twice is lower-casing once |
| `Common.OrStringIdempotent` | server/controllers/User.Controller.js:137-142 | a value-or-fallback field sent again with the same value stays as it is |
| `Common.TrimmedOrIdempotent` | server/controllers/Hospital.controller.js:179-189 | a trimmed value-or-fallback field sent again with the same value stays as it is |
| `Common.ParseIntOfDigits` | server/controllers/Hospital.controller.js:373-378 | parseInt of a non-empty digit string is its decimal value |
| `Common.ParseIntNaN` | server/controllers/Hospital.controller.js:373-378 | parseInt of a text that starts with no digit, sign or space is NaN |
| `Common.ParseIntOfNumber` | server/controllers/Hospital.controller.js:373-378 | parseInt of a number's decimal text gives the number back |
| `Common.FilterMember` | BDAS/src/components/user/UserHistory.jsx:79-84 | an element is kept exactly when it is in the list and passes the test |
| `Common.CountIsFilterLength` | BDAS/src/components/user/UserDashboard.jsx:46-47 | a count is the length of the filtered list |
| `Numbers.Cast` | server/schemas/BloodRequestSchema.js:16-19 | an empty text is no value and a text of white space alone is 0 |
| `Numbers.CastDigits` | server/schemas/BloodRequestSchema.js:16-19 | a non-empty run of digits is cast to its decimal value |
| `Numbers.CastNegated` | server/schemas/BloodRequestSchema.js:16-19 | a minus sign before digits is cast to the negated value |
| `Numbers.CastNumberText` | server/schemas/DonerSchema.js:42-46 | the decimal text of a whole number is cast back to that number |
| `Numbers.CastTrimmed` | server/schemas/BloodRequestSchema.js:16-19 | white space around a number does not change what it is cast to |
| `Numbers.CastPointed` | server/schemas/BloodRequestSchema.js:16-19 | digits, a point and a fraction are cast to the whole part when the fraction is worth zero, and to no whole value otherwise |
| `Numbers.OrCast` | server/controllers/Hospital.controller.js:183 | `value \|\| stored` on a number path: a missing value, the number 0 and "" keep the stored number; any other number is stored; any other text is cast, and no value is a failed cast |
| `Numbers.ZeroTextWrites` | server/controllers/Donor.controller.js:154 | the text "0" is truthy and writes 0, where the number 0 keeps the stored value |
| `Numbers.OrCastIdempotent` | server/controllers/Hospital.controller.js:183 | sending the same value again onto the result changes nothing |
| `Numbers.NumberTextStores` | server/controllers/Donor.controller.js:154 | the decimal text of a number, sent back, stores that number |
| `Numbers.CastScientific` | server/schemas/BloodRequestSchema.js:16-19 | digits, a point, a fraction and an exponent at least as long as the fraction are cast to the shifted whole number |
| `Browser.DigitsPass` | BDAS/src/components/user/RequestBlood.jsx:209-213 | typed digits pass a number input and are stored as their decimal value |
| `Browser.NegativePasses` | BDAS/src/components/user/RequestBlood.jsx:209-213 | a minus sign and digits pass a number input and are stored as a negative number |
| `Browser.PointedPasses` | BDAS/src/components/donors/DonorRegister.jsx:221-224 | digits, a point and a fraction pass a number input exactly when the fraction is worth zero, and are then stored as the whole part |
| `Browser.ScientificPasses` | BDAS/src/components/hospitals/HospitalRegister.jsx:234-237 | a number in exponent form that makes a whole value passes a number input and is stored as that value |
| `Browser.SameNumberSpellings` | BDAS/src/components/donors/DonorForgotPassword.jsx:153-157 | plain digits, the digits with a zero fraction and the exponent form all pass and are cast to the same number |
| `Browser.EmailRulesDiffer` | BDAS/src/components/user/UserRegister.jsx:241-244 | the e-mail input and the forms' own pattern disagree both ways: "a@b" passes only the input and "a(b@c.de" only the pattern |
| `Store.UserByEmail` | server/controllers/User.Controller.js:74 | the first user whose stored e-mail equals the query after trimming and lower-casing, or none when no user has it |
| `Store.Database.AddRequest` | server/controllers/BloodRequest.Controller.js:18-32 | the validated request is appended under the next id; the other collections are untouched and every index stays unique |
| `Store.Database.RemoveRequest` | server/controllers/BloodRequest.Controller.js:174 | exactly that request is removed, the others keep their order |
| `Store.Database.SetHospital` | server/controllers/Hospital.controller.js:217 | exactly that hospital is replaced; e-mail, licence and phone stay unique and the inventory keeps its eight counters |

## Left out

- Database plumbing: queries, `populate` and `save` are modelled by their effect on in-memory sequences. Indexes are enforced only as the uniqueness the handlers check, and there are no transactions or concurrent requests.
- Authentication: JWT signing and checking are replaced by the caller's id as a parameter of every protected handler, and tokens in replies are left out.
- Password hashing: bcrypt and the pre-save hooks are left out, and `matchPassword` is string equality. The hooks of the donor and user schemas also re-hash an already hashed password on saves that do not change it. That effect depends on hashing and on the scheduling of the asynchronous hook, so it is not modelled.
- E-mail delivery: the sender is a boolean "delivered" parameter, and message contents are left out.
- Clock and randomness: the time and the OTP's random draw are parameters.
- Local time and formatting: dates are read in UTC, and the browser's time zone and `toLocaleDateString` are left out.
- GeoJSON: locations and `parseFloat` of coordinates are floating point and feed no rule.
- Routes and start-up: `server/index.js` mounts only the `/User` router, so most handlers are unreachable as deployed. The model treats every handler as reachable at the path its client uses.
- `getRequestById`, `getDonorProfile`, `getHospitalProfile` and the hospital controller's `getAllHospitals`: single-document reads and listings with no rule beyond "404 when absent".
- The `createHospitalRequest` in `server/controllers/Hospital.controller.js:322-353` (no stock check) is left out. It is mounted only under the hospitals router, which no client calls. The client's direct request goes to the one in `server/controllers/BloodRequest.Controller.js`, which is modelled.
- Admin handlers `getAllUsers`, `getAllHospitals`, `deleteHospital`, `getAllRequestsAdmin`, `deleteRequestAdmin` and `updateAdminProfile` are left out, along with the admin list screens that call them. They are listings and unguarded deletes over data the model already holds.
- The contact form and its controller and schema are left out: they hold no rules. The admin schema is modelled only as the `Admin` record in the store.
- UI rendering is left out: toasts, spinners, navigation, `localStorage` session handling and the "session expired" branches, which run before any request is sent.
- `LoginForm.Page.HandleSubmit` states whether the form goes out. The login itself is the controllers' `LoginSucceeds`, which is not chained here.
- `UserRegisterPage.Page.HandleSubmit` states whether the form goes out. The registration it posts is `UserController.RegisterUser`, which is not chained here.
- Case folding: `toLowerCase` and `toUpperCase` are modelled on ASCII letters only. Other letters (accented, Greek, the dotted capital I and the like) are left as they are, where JavaScript would map them.
- Number width: numbers are unbounded integers. A `Number` path holds a double, so values beyond 2^53 lose precision there, and `Infinity`, hexadecimal texts, overflow to infinity and `NaN` are not modelled. A text that `Number` reads as a fraction, or that does not read as a number at all, is modelled as no value (`Numbers.Cast` gives `None`). The fractional value itself is not modelled: where a profile update sends a truthy weight or bed count that reads as a fraction, the model answers 500 as for an uncastable text, while Mongoose would store the fraction (and, for a weight of at least 45, answer 200).
- HospitalProfilePage.Body: the form holds the bed count as text, so a bed count loaded as the number 0 and sent back unedited is modelled as the text "0", which stores 0; the page would send the number 0, which keeps whatever count is stored by then. The two differ only when the stored count changed after the page loaded it.
- E-mail inputs: the browser strips line breaks from an e-mail input's value and trims it before checking. The model checks the text as typed.
- Number inputs: text a number input cannot read shows as an empty value to the page. The model keeps the text typed and lets the browser's check refuse it.
- Time inputs: the browser's own syntax for time values is not checked. A time input is modelled as its text, read by the booking dialog's parser.
- `Forms.IsoDay`: years outside 0 to 9999 get a sign and six digits; `Forms.IsoDayReadsBack` covers only years 0 to 9999. Dates beyond the range of a JavaScript `Date` (about 275760 years either way) and invalid dates are not modelled.
- `HospitalController.InventoryUpdate`: of the members a Mongoose nested path inherits, only the twelve of `Object.prototype` and `toObject` and `toJSON` are listed (`BloodGroups.ObjectMembers`). Other document members (`save`, `validate`, internal `$__` fields) are modelled as unknown keys, answering 400; the same list decides where `RequestController.DirectRequest` reads no number stock, so a blood group naming another member is refused for stock (400) in the model where the server would go on to the create and answer 500.
- `AdminController.DonorsWithStats`: store order is taken to be creation order, so newest first is store order reversed. Two donors with the same `createdAt` are not told apart.
- Profile pages' `Page.Load`: the fetched document is a parameter, since the single-document reads are not modelled. The user page's request count is not modelled. A number the page keeps as a number in its state is modelled as its decimal text.

## Findings

| source | as written | input that shows it | evidently intended | confidence | as-written member | corrected member |
|---|---|---|---|---|---|---|
| server/controllers/Donor.controller.js:212-213, 251-259 (with server/schemas/DonerSchema.js:4-78) | The donor schema declares no `resetPasswordOtp`/`resetPasswordExpire` paths, so the code written by forgot-password is never stored. The reset query then filters on undeclared paths: under strict query filtering they are dropped and any code resets any registered donor's password; kept, nothing ever matches. | forgot-password for a registered e-mail, then reset-password with that e-mail and the code `1` (or with the mailed code) | the code is stored for ten minutes and a reset succeeds only with it, then clears it, as for hospitals and admins | not executed | `DonorController.ResetAsWrittenIgnoresCode` | `DonorController.ForgotThenReset` |
