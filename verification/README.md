# SmartNagar portal core in Dafny

SmartNagar is a municipal citizen-services portal. This model covers its
server-side logic with the web framework stripped away:

- **Citizens** file complaints, track them, keep garbage-collection reminders
  and edit their profile.
- **Admins** move complaints through their statuses and notify the owner. They
  also switch accounts on and off, soft-delete users, maintain notices, read
  the activity feed and look at dashboards and the system overview.
- **Officers and admins** publish notices on the notice board.
- **Visitors** sign in and register.
- **At start-up**, the seeder creates the roles and the fixed staff accounts.
- **Forms**: the data-annotation validators of the forms (complaint wizard,
  registration, password change, e-mail verification, profile).

The database is an immutable `Store` holding one sequence per table: users,
complaints, activity logs, citizen notifications, notices, garbage reminders,
plus the identity roles and user-role mappings.

- Every controller action is a pure transition `Store -> Store`. Both
  `SaveChanges` calls of one action count as a single step.
- The tables are MySQL tables. A `MaxLength(n)` column is a `varchar(n)` that
  counts characters, and a value longer than that makes the save throw. An
  action that would store such a value leaves the store as it was.
- Lookups by key model `FirstOrDefault`: the first matching row in table order.
- A new integer key is one above every key present, as an identity column
  hands out.
- Times are ticks of 100 ns, and `DateTime.Date` is a day number.
- Strings are sequences of Unicode scalar values. `.Length` and the regular
  expressions work on their UTF-16 code units, as .NET does.
- Inputs the framework owns are parameters:
  - the clock `now`;
  - the new account's generated id;
  - `passwordOk`, the password check with lockout;
  - `creates`, the identity framework's verdict on a new user;
  - `isEmail`, the `[EmailAddress]` test;
  - `formValid`, for forms whose view model is not part of this model.

Modules, one per concern:

- `Optional`, `Text` and `Sequences`: `Option`, the .NET string primitives,
  and `Where` / `OrderByDescending` / `Take` / `FirstOrDefault`.
- `Entities`: the rows and the store.
- `Patterns`: a matcher for the two regular expressions.
- `Forms`: the view-model validators.
- The controllers: `Admin`, `Overview` (`SystemOverview`), `Citizen`,
  `Account`, `NoticeBoard`, `Seeder` and `Home`.

## Model

| member | source | states |
|---|---|---|
| Admin.AcceptedStatus | AdminController.cs:276-283 | a status is accepted only when it is present and, once trimmed, one of "Pending", "In Progress", "Resolved"; the accepted value is the trimmed one; blank or other input is rejected |
| Admin.UpdateComplaintStatus | AdminController.cs:274-324 | a rejected status or an unknown id leaves the whole store unchanged; otherwise only the first complaint with that id changes: status set, `ResolvedAt` set exactly when the status is "Resolved", one unread "Complaint" log entry appended, and one unread status notification for the owner appended exactly when the complaint has a non-empty owner |
| Admin.UpdateStatusKeepsResolvedAt | AdminController.cs:289-294 | if every complaint has `ResolvedAt` set exactly when resolved, that still holds after any status update |
| Admin.UpdateStatusKeepsUniqueKeys | AdminController.cs:285-321 | a status update keeps the primary keys of every table unique |
| Admin.ToggleActive | AdminController.cs:70-93 | a blank or unknown id is a no-op; otherwise only that user's `IsActive` is negated, and the log title ("User activated" / "User deactivated") matches the new value |
| Admin.ToggleTwiceRestoresUsers | AdminController.cs:79 | toggling the same id twice gives back the original users table |
| Admin.DeleteUser | AdminController.cs:100-133 | a blank or unknown id, or the account whose lower-cased e-mail is "admin@smartnagar.com", leaves the store unchanged; otherwise that user is switched off, kept in the table, and one log entry appended |
| Admin.DeleteUserNeverRemovesOrTouchesAdmin | AdminController.cs:110-118 | the users table keeps its length, and the reserved administrator's row is never changed |
| Admin.MarkActivityRead | AdminController.cs:398-407 | an unknown id is a no-op; otherwise exactly the first entry with that id becomes read |
| Admin.MarkActivityReadIdempotent | AdminController.cs:398-407 | marking the same entry twice equals marking it once |
| Admin.MarkAllRead | AdminController.cs:410-419 | afterwards no entry is unread; entries keep order and content; a feed with nothing unread is unchanged |
| Admin.MarkAllReadIdempotent | AdminController.cs:410-419 | marking everything read twice equals once |
| Admin.Dashboard | AdminController.cs:30-45 | the counts are the table sizes and the Resolved/Pending counts, with Resolved + Pending at most the total; it shows at most 15 log entries, newest first, and none left out is newer than one shown |
| Admin.PublishNotice | AdminController.cs:146-174 | an invalid form, or a trimmed title over 140 or a priority over 20 characters (the column widths of Notice.cs), changes nothing; otherwise one notice is appended with trimmed title and description, a fresh id and no creator attribution, and one "Notice" log entry is appended |
| Admin.PublishNoticeKeepsUniqueKeys | AdminController.cs:155-171 | publishing keeps every table's keys unique |
| Admin.NoticeIndex | AdminController.cs:196 | the lookup returns the first notice with the id, or none when no notice has it |
| Admin.DeleteNotice | AdminController.cs:194-213 | an unknown id is a no-op; otherwise exactly that notice is removed (the others keep their order) and one "Notice deleted" entry carrying its title is logged |
| Admin.DeleteNoticeRemovesExactlyIt | AdminController.cs:196-200 | with unique ids the id is no longer found, and the remaining notices are the old ones minus exactly the deleted one, as multisets |
| Admin.EditedNotices | AdminController.cs:233-238 | an unknown id leaves the notices alone; otherwise only the first notice with the id changes, to its edited form |
| Admin.EditNotice | AdminController.cs:231-253 | an unknown id, or an edited title over 140 or priority over 20 characters, is a no-op; otherwise that notice gets trimmed title, description and priority (missing ones become "", "" and "Normal") and one "Notice updated" entry is logged |
| Admin.EditedNoticesIdempotent | AdminController.cs:233-238 | applying the same edit twice to the notices table equals applying it once |
| Admin.EditNoticeTwiceSameNotices | AdminController.cs:231-253 | resubmitting the same edit leaves the notices as the first submission left them, whether that one was saved or refused |
| Admin.EditedNoticeIsTrimmed | AdminController.cs:236-238 | when the edit is saved, the stored title, description and priority are fixed points of `Trim` |
| Overview.TrendSeries | AdminController.cs:343-356 | the dense series has one entry per day of the window, and entry i is the number of complaints created on that day, 0 when there are none |
| Overview.TrendWindow | AdminController.cs:334-356 | the window is the `days` calendar days ending on the day of `now`, and each value counts the complaints created on its day |
| Overview.AtOrAfterMidnight | AdminController.cs:344 | a creation time is at or after midnight of day d exactly when its day is d or later |
| Overview.Categories | AdminController.cs:359 | the group keys have no repeats and are exactly the categories some complaint carries |
| Overview.CategoryGroups | AdminController.cs:358-360 | one group per category present, each with that category's complaint count |
| Overview.CategoryDistribution | AdminController.cs:358-362 | the groups in descending order of count, each count positive and correct, no category listed twice |
| Overview.DistributionCoversEveryCategory | AdminController.cs:358-362 | every complaint's category appears in the distribution |
| Overview.ChartOf | AdminController.cs:364-372 | labels and values line up; the values do not increase; the labels show a missing category as "Other"; the top list is the first min(6, n) of them |
| Overview.SystemOverview | AdminController.cs:330-392 | no view exactly when the window's first day would fall before 0001-01-01, where `AddDays` throws; otherwise `days <= 0` becomes 30; the trend has exactly `days` entries, entry i covering day today-days+1+i; the category values do not increase; the status series is exactly [pending, resolved]; the totals are the table sizes |
| Citizen.Dashboard | CitizenController.cs:39-56 | every count ranges over the caller's complaints only, and Pending + In Progress + Resolved is at most the total |
| Citizen.DashboardIgnoresOthers | CitizenController.cs:43 | adding a complaint that the caller does not own leaves the caller's dashboard unchanged |
| Citizen.MyComplaints | CitizenController.cs:62-73 | exactly the caller's complaints (each with its multiplicity), newest first |
| Citizen.DashboardTotalIsListLength | CitizenController.cs:43-48 | the dashboard total is the length of the caller's complaint list |
| Citizen.TrackStatus | CitizenController.cs:128-145 | no id finds nothing; a result has the asked id and belongs to the caller; none means no complaint has that id and owner |
| Citizen.TrackStatusNeverRevealsOthers | CitizenController.cs:135-136 | another citizen's complaint is never returned, whatever id is asked |
| Citizen.SubmitComplaint | CitizenController.cs:97-122 | an invalid wizard, or a category over the 120-character column of Complaint.cs, changes nothing; otherwise exactly one complaint is appended (the wizard already bounds the title to its column): Pending, no `ResolvedAt`, owned by the caller, a missing category stored as "Other" |
| Citizen.SubmittedComplaintKeepsEnteredText | CitizenController.cs:108-110 | a valid wizard is filed exactly when its category fits the column, and then the stored category, title and description are the ones entered |
| Citizen.SubmitKeepsInvariants | CitizenController.cs:106-118 | filing keeps `ResolvedAt` consistent with the status and keeps every key unique |
| Citizen.OrDefault | CitizenController.cs:197-199 | a blank field takes the default; any other value is kept as entered |
| Citizen.SaveGarbageReminder | CitizenController.cs:174-208 | a ward at or below 0, or a ward the caller already has, changes nothing; otherwise one reminder is appended with the blank fields defaulted, exactly when days, time and notes fit their 100, 80 and 200-character columns (GarbageReminder.cs), and nothing changes when they do not |
| Citizen.SaveKeepsOneReminderPerWard | CitizenController.cs:184-191 | saving keeps at most one reminder per citizen and ward |
| Citizen.SaveTwiceIsSaveOnce | CitizenController.cs:184-191 | a second save for the same ward changes nothing, unless the first failed on an over-long value |
| Citizen.DeleteGarbageReminder | CitizenController.cs:232-247 | the store is unchanged exactly when the caller owns no reminder with that id; otherwise exactly one such reminder is removed and every other reminder keeps its multiplicity |
| Citizen.DeleteKeepsOneReminderPerWard | CitizenController.cs:236-242 | deleting keeps at most one reminder per citizen and ward |
| Citizen.MyGarbageReminders | CitizenController.cs:214-225 | exactly the caller's reminders, newest first |
| Citizen.SavedReminderIsListed | CitizenController.cs:193-225 | a fresh save shows in the caller's list; the list grows by one and keeps every earlier entry |
| Citizen.DeletedReminderLeavesList | CitizenController.cs:236-242 | with unique reminder ids, no reminder with the deleted id remains on the caller's list |
| Citizen.UpdateProfile | CitizenController.cs:291-306 | an invalid form or a missing account changes nothing; otherwise only the caller's name and address change |
| Citizen.UpdateProfileKeepsIdentity | CitizenController.cs:299-300 | no user's e-mail, id, role or activation changes, whatever e-mail the form carries |
| Citizen.DeactivateAccount | CitizenController.cs:314-318 | the store is unchanged and only the "disabled" message is returned |
| Account.FindByEmail | AccountController.cs:37 | the first user whose case-normalised e-mail equals the input, or none when no user matches |
| Account.Login | AccountController.cs:32-82 | the checks run in order: invalid form, then unknown e-mail (generic message), then inactive account, then wrong password (the same generic message); Admins go to Admin/Dashboard and everyone else to Home/Index |
| Account.InactiveRefusedWhateverPassword | AccountController.cs:46-50 | an inactive account is refused the same way whatever password and password oracle are used |
| Account.WrongPasswordLooksLikeUnknownEmail | AccountController.cs:39-43 | a wrong password and an unknown e-mail give the same answer |
| Account.LoginSucceedsIff | AccountController.cs:32-82 | sign-in redirects exactly when the form is valid, the account exists and is active, and the password checks out |
| Account.AdminDashboardOnlyForAdmins | AccountController.cs:69-72 | landing on the admin dashboard implies the account is in the Admin role |
| Account.Register | AccountController.cs:95-130 | an invalid form or a known e-mail creates nothing; for a valid form and an unknown e-mail the outcome is CreateFailed exactly when the id is taken or the identity validators refuse, SaveFailed exactly when they accept but the name exceeds the 100-character column of User.cs, and otherwise the user is created; the failures change nothing; otherwise one active Citizen user is created with `UserName == Email`, and the Citizen role is mapped only after the creation succeeded |
| Account.RegisteredCitizenCanSignIn | AccountController.cs:107-129 | after a registration the same address finds the new account and signs in whenever its password checks out |
| NoticeBoard.CreatorName | NoticeController.cs:47 | the caller's full name, or "Unknown" when the account or its name is missing |
| NoticeBoard.Publish | NoticeController.cs:31-65 | an invalid form, or a trimmed title over 140 or a priority over 20 characters, changes nothing; otherwise one notice is appended (trimmed title and description, creator role "Admin" or "MunicipalOfficer", creator name) plus exactly one unread "Notice" log entry |
| NoticeBoard.PublishedTitleIsTrimmed | NoticeController.cs:40 | the stored title is trimmed, and it is empty exactly when the entered title was blank |
| NoticeBoard.List | NoticeController.cs:68-75 | every notice, each exactly once, newest first |
| NoticeBoard.NewestNoticeListedFirst | NoticeController.cs:38-43 | a notice published after all others heads the list |
| Seeder.EnsureRoles | DbSeeder.cs:18-24 | afterwards every seed role exists; existing roles are kept and none is duplicated; nothing changes when all exist |
| Seeder.Repaired | DbSeeder.cs:86-105 | blank name and role are filled in, non-blank ones are never overwritten, the account is switched on, and no other field changes |
| Seeder.EnsureUser | DbSeeder.cs:54-114 | an unknown e-mail is created, active and confirmed with the role mapped, exactly when the new id is free and the identity framework accepts the account; otherwise nothing changes; a known one is repaired in place and mapped to the role |
| Seeder.EnsureUserOnlyAdds | DbSeeder.cs:54-114 | seeding never changes an existing e-mail or id, never deactivates anyone and never drops a role mapping |
| Seeder.EnsureUserLeavesAccountReady | DbSeeder.cs:111-113 | after a completed run the account is found by its e-mail, active, and in the role |
| Seeder.EnsureUserIdempotent | DbSeeder.cs:54-114 | running it a second time after a completed run changes nothing |
| Seeder.Seed | DbSeeder.cs:9-52 | all three roles exist afterwards, existing roles are kept, no role is added twice to a duplicate-free list, and the accounts are only added or repaired |
| Home.RoundHalfEven | HomeController.cs:23 | the nearest integer to n/d, ties going to the even one |
| Home.Satisfaction | HomeController.cs:23 | 0 without users; otherwise within one half of active*100/total, so between 0 and 100 |
| Home.ActiveCitizensAreActive | HomeController.cs:16-18 | active citizens never outnumber active users |
| Home.Index | HomeController.cs:13-34 | active citizens are the users both active and with Role "Citizen"; the satisfaction figure is the rounded percentage of active users (0 without users); resolved is 0 and availability "24/7" |
| Home.SatisfactionExtremes | HomeController.cs:23 | all active gives 100 and none active gives 0 |
| Forms.RequiredMeaning | ComplaintWizardVM.cs:9 | `[Required]` holds exactly when the value is present and not blank once trimmed |
| Forms.ComplaintWizardMeaning | ComplaintWizardVM.cs:9-38 | the wizard is valid exactly when the seven required fields are filled, title ≤ 200, area ≤ 120, landmark ≤ 120, address ≤ 300 and contact ≤ 20 code units, and any e-mail passes |
| Forms.WardNumberUnconstrained | ComplaintWizardVM.cs:16-17 | `[Required]` on the int ward number accepts every value |
| Forms.DefaultWizardRejected | ComplaintWizardVM.cs:10-14 | a fresh wizard has priority "Low" and category "", and is invalid |
| Forms.PhoneFieldMeaning | SmartNagar/ViewModel/RegisterViewModel.cs:21 | the phone expression accepts null, the empty string and exactly the 10-character strings made of '9' and nine decimal digits |
| Forms.RegisterFormMeaning | SmartNagar/ViewModel/RegisterViewModel.cs:7-33 | the form is valid exactly when all six fields are filled, the e-mail passes, the phone is '9' and nine digits, the password has 6 to 100 code units and the confirmation equals it |
| Forms.StrongPasswordFieldMeaning | SmartNagar/ViewModel/ChangePasswordViewModel.cs:15-16 | the password expression accepts null, the empty string and exactly the strong passwords |
| Forms.StrongPasswordIsRequired | SmartNagar/ViewModel/ChangePasswordViewModel.cs:12-16 | a present value passes both `[Required]` and the expression exactly when it is strong |
| Forms.ChangePasswordMeaning | SmartNagar/ViewModel/ChangePasswordViewModel.cs:7-23 | the form is valid exactly when the current password is filled, the new one is strong and the confirmation equals it |
| Forms.VerifyEmailMeaning | SmartNagar/ViewModel/VerifyEmailViewModel.cs:7-14 | the form is valid exactly when the e-mail is filled and passes, and the code is filled with exactly 6 code units |
| Forms.VerificationCodeNeedNotBeDigits | SmartNagar/ViewModel/VerifyEmailViewModel.cs:13 | "abcdef" passes as well as "123456"; "12345" fails |
| Forms.ProfileMeaning | ProfileViewModel.cs:7-14 | the form is valid exactly when the name is filled and at most 100 units, the e-mail is filled and passes, and any address is at most 200 units |
| Patterns.PhonePatternMeaning | SmartNagar/ViewModel/RegisterViewModel.cs:21 | `^9\d{9}$` matches a string exactly when it has 10 characters, the first is '9' and the rest are decimal digits |
| Patterns.PhoneMatchUnits | SmartNagar/ViewModel/RegisterViewModel.cs:21 | on code units, the pattern matches exactly ten units: '9' followed by nine digits |
| Patterns.StrongPasswordPatternMeaning | SmartNagar/ViewModel/ChangePasswordViewModel.cs:15 | the password expression matches exactly when the string has at least 8 code units, no line feed, an ASCII capital, a decimal digit and one of the listed symbols |
| Patterns.PasswordMatchUnits | SmartNagar/ViewModel/ChangePasswordViewModel.cs:15 | on code units: the three look-aheads each find their class, and `.{8,}` covers at least 8 units, none a line feed |
| Patterns.SymbolClassIsSymbolChar | SmartNagar/ViewModel/ChangePasswordViewModel.cs:15 | the bracketed class holds exactly the listed ASCII symbols |
| Patterns.NoNewlineUnitsIffChars | SmartNagar/ViewModel/ChangePasswordViewModel.cs:15 | the code units hold no line feed exactly when the characters hold none |
| Patterns.SomeInUnitsIffChars | SmartNagar/ViewModel/ChangePasswordViewModel.cs:15 | for a class without surrogates or astral values, some code unit lies in it exactly when some character does |
| Text.TrimIsInner | AdminController.cs:279 | the trimmed string is a slice of the input whose margins are all white space and whose ends are not |
| Text.TrimIdempotent | AdminController.cs:236-238 | trimming twice equals trimming once |
| Text.TrimEmptyIffBlank | AdminController.cs:276-279 | trimming yields "" exactly for empty or all-white-space input |
| Text.Lower | AdminController.cs:110 | the same length, with ASCII capitals lowered and every other character kept |
| Text.CodeUnitsOfString | ComplaintWizardVM.cs:19 | every code unit is a surrogate or one of the characters, and there are at least as many units as characters |
| Text.Utf16OfBmp | SmartNagar/ViewModel/VerifyEmailViewModel.cs:13 | without characters above U+FFFF, `.Length` is the character count |
| Entities.CodeUnitBoundFits | ComplaintWizardVM.cs:19 | a value the form bounds to n UTF-16 code units has at most n characters, so it fits a `varchar(n)` column |
| Entities.AppendLog | AdminController.cs:81-88 | only the activity feed changes, gaining one unread entry with the given content under a fresh id |
| Entities.UserIndex | AdminController.cs:75 | the first user with the id, or none when no user has it |
| Entities.OwnedBy | CitizenController.cs:43 | exactly the complaints owned by the citizen, each with its multiplicity |
| Entities.StatusCountsBounded | CitizenController.cs:48-51 | the three status counts never add up to more than the total |
| Sequences.SortDesc | CitizenController.cs:68 | a permutation of the input with non-increasing keys |
| Sequences.Filter | CitizenController.cs:67 | exactly the elements satisfying the predicate, each with its multiplicity |
| Sequences.TopN | AdminController.cs:39-40 | the n elements with the largest keys, largest first; nothing left out outranks anything kept |
| Sequences.FirstIndex | AdminController.cs:75 | the first position satisfying the predicate, or none when no position does |
| Sequences.NextId | CitizenController.cs:117 | the new key is above every key present |

## Left out

- PDF report (`GenerateReportPdf`): it only lays out a document through a foreign library.
- `ManageUsers`, the admin `Complaints` list, `Emergency`, `GarbageSchedule` and both `EditNotice`/`MyProfile` GET pages: they read and display rows without deciding anything. The admin and citizen `Notices` pages run the same query as `NoticeBoard.List`.
- Identity internals: password hashing, lockout, tokens, cookies and sign-in. They are the `passwordOk` and `creates` parameters, and role membership is a set of (user id, role) pairs.
- `DeleteAccount` and `QuickReset`: identity-framework calls and a hard-coded credential reset.
- `IssueController`: an older complaint flow on a separate schema, with a file upload. Also left out: `Program`, the database contexts and the migrations.
- Photo uploads on the complaint wizard: they are not part of validation.
- Trend labels: `d.ToString("dd MMM")` is kept as the day number.
- The `[EmailAddress]` grammar: it is the `isEmail` parameter.
- `LoginVM`, `RegisterVM` and `PublishNoticeVM` are not part of this model, so their validity is the `formValid` parameter.
- Text.Lower: only ASCII letters are lowered; culture-aware case mapping is not modelled.
- Account.FindByEmail: normalises with the same ASCII lowering. When several rows share a normalised e-mail it takes the first; the identity store's handling of such duplicates is not modelled.
- Sequences.SortDesc: ties keep table order. The database gives no order for ties.
- Sequences.NextId: a new key is one above the largest present key, which is stronger than the store's identity column promises.
- Home.Satisfaction: `Math.Round` on the `double` active*100.0/total is modelled as rounding the exact fraction. The rounding error of the floating-point division is not modelled.
- Seeder.EnsureUser: requires the role to exist; `SeedAsync` creates the roles first. Failures of `UpdateAsync` and `AddToRoleAsync` are not modelled.
- Citizen.UpdateProfile: a failed `UpdateAsync` is not modelled.
- Form binding: an int field posted empty fails binding before `[Required]` runs, and that failure is not modelled.
- Account.Login: the MunicipalOfficer branch gives the same redirect as the Citizen one. The model keeps the branch, but the two cannot be told apart.
- Roles are compared as exact strings; the identity store's case-insensitive role names are not modelled.
- Overview.Categories, Overview.CategoryGroups, Overview.CategoryDistribution, Overview.ChartOf, Overview.SystemOverview and Home.Index: the database compares strings under its collation, which for MySQL 8 ignores case and accents, so "Water" and "water" form one group and a "citizen" role is counted. The model compares exact strings. The portal writes statuses and roles only in their canonical spelling, so the difference shows on free-text categories and on rows written outside it.
- Overview.SystemOverview: `days` is an unbounded integer and `now` an unbounded tick count. The source's 32-bit parameter and the `DateTime` upper bound (9999-12-31) are not enforced; inputs beyond them have no counterpart in the source. Query-string binding of `days` is not modelled.
- Column widths: only the columns that the actions can overflow are checked: the three reminder fields, the notice title and priority, the complaint category and title, and the user's full name. The seeded accounts' names are fixed and short. Status updates write a canonical status and a short notification text. The identity framework's own column widths (256 characters for user name and e-mail) are not modelled. MySQL's strict SQL mode, its default, is assumed.
- Where the intended behaviour and the code differ, the code is followed:
  - SubmitComplaint sends no officer or admin notifications.
  - Only a missing category becomes "Other", at submission and on the chart labels. An empty category stays empty.
  - `ToggleActive` does not exempt the seeded administrator.
  - Complaint categories are stored as entered, with no canonical mapping.
- Columns missing from `Complaint.cs` and `Notice.cs` are added as the code uses them: `ResolvedAt`, and the notice creator role and name.
