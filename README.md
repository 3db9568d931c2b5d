# Student enquiry web application: a Dafny model of its logic

The application is a client-side site for looking up student records by registration number. It has a mock sign-in layer and a contact form. Almost all of it is markup. This project models the parts that make decisions:

- **Session store** (`AuthContext.tsx`), module `AuthContext`. It holds a credential list that only grows (two seeded accounts), the current identity, the `isAuthenticated` flag and the single browser-storage slot `user`. It offers `login`, `register` and `logout`, plus the restore run at start-up. Each transition is a pure function over a `Session` snapshot (`LoginStep`, `RegisterStep`, `LogoutStep`, `RestoreStep`), and the lemmas are stated about these functions. The class `AuthStore` has the fields `creds`, `user`, `isAuthenticated` and `stored`. Each of its methods is proved to perform exactly the matching transition.
- **Student lookup** (`mockStudents.ts`), module `MockStudents`. It holds the five seeded records. `GetStudentByRegNo` returns the first record whose `regNo` equals the query exactly, or `None`.
- **Page handlers**, modules `HomePage`, `RegisterPage`, `LoginPage` and `ContactPage`. Each page's checks are a pure decision function over the entered strings: `Search`, `CheckForm`, and `FormErrors` with its per-field rules. Each page's state is a class whose methods are the source's handlers.
- **Shared helpers** (module `Common`):
  - JavaScript whitespace, given as the exact ECMAScript WhiteSpace and LineTerminator code points.
  - `trim`.
  - `Array.prototype.find`, written as `FirstIndex`: the first index whose element satisfies a predicate.
  - `String(n)`, written as `DecimalString`.
  - The `a || fallback` idiom on strings.

Modelling choices:

- A credential's or identity's `id` is a string. The id that `register` assigns is `DecimalString(|creds| + 1)`, the decimal text of a natural number, which is what `String(mockUsers.length + 1)` produces. `isAdmin` is an optional property, so it is `Option<bool>`.
- The storage slot is the datatype `Stored`:
  - `Absent` means no entry, or an empty string (which the source treats as falsy).
  - `Present(u)` means text that `JSON.parse` reads back as the identity `u`.
  - `Malformed` means text that does not parse.
- The pages test `!s.trim()` as `Blank(s)`, meaning every character is whitespace. `Common.TrimEmptyIffBlank` proves that the two tests agree for every string.
- A timer callback is its own atomic method: `Home.CompleteSearch`, `ContactForm.CompleteSend`. The Home callback receives the registration number captured when the search was submitted. `Home.Submit` and `ContactForm.Submit` run a handler and then its callback. The one-second waits inside `login` and `register` come before any state change, so each store method is one atomic step.

## Model

| member | source | states |
|---|---|---|
| Common.TrimStart | src/pages/Home.tsx:17 | the result is a suffix of the input, everything it dropped is whitespace, and it does not start with whitespace |
| Common.TrimEnd | src/pages/Home.tsx:17 | the result is a prefix of the input, everything it dropped is whitespace, and it does not end with whitespace |
| Common.Trim | src/pages/Home.tsx:17 | `s.trim()` is no longer than `s` and neither starts nor ends with whitespace; `TrimDropsBlankEnds` places it inside `s` and `TrimEmptyIffBlank` relates it to the blank test |
| Common.TrimDropsBlankEnds | src/pages/Contact.tsx:18 | `s.trim()` is a contiguous part of `s` whose dropped prefix and suffix are all whitespace |
| Common.TrimEmptyIffBlank | src/pages/Contact.tsx:18 | `s.trim()` is empty exactly when every character of `s` is whitespace, which justifies using `Blank` for `!s.trim()` |
| Common.FirstIndex | src/context/AuthContext.tsx:57-59 | `find`: the returned index satisfies the predicate and no earlier index does; the result is absent exactly when no element satisfies it |
| Common.OrElse | src/pages/Login.tsx:29 | the logical-or fallback on an error message is one of its two operands, the message whenever it is non-empty, and it is empty only when both are |
| Common.DecimalString | src/context/AuthContext.tsx:84 | `String(n)` is non-empty, made only of decimal digits, and has no leading zero unless `n` is 0 |
| Common.DecimalRoundTrip | src/context/AuthContext.tsx:84 | reading the decimal string of `n` back gives `n` |
| Common.DecimalStringInjective | src/context/AuthContext.tsx:84 | distinct counts give distinct ids |
| AuthContext.LoginStep | src/context/AuthContext.tsx:52-70 | login succeeds exactly when some credential has an equal email and an equal password (exact comparison); on success the identity is the FIRST match without its password, becomes current, sets the flag and is stored, and the credential list is unchanged; on failure the message is 'Invalid email or password' and nothing changes |
| AuthContext.RegisterStep | src/context/AuthContext.tsx:72-98 | register fails exactly when an existing credential has the same email, and then the message is 'Email already in use' and nothing changes; on success exactly one credential `{id: String(n+1), name, email, password}` is appended after the unchanged old ones, and its identity becomes current, authenticated and stored |
| AuthContext.LogoutStep | src/context/AuthContext.tsx:100-104 | logout leaves no identity, clears the flag and the slot, and keeps the credentials |
| AuthContext.RestoreStep | src/context/AuthContext.tsx:37-50 | a parsed stored identity becomes current and authenticated; unparseable content is removed and the session is otherwise untouched; an empty slot changes nothing |
| AuthContext.Strip | src/context/AuthContext.tsx:63 | the identity made by dropping `password` keeps the id, name, email and isAdmin of the credential |
| AuthContext.StripForgetsOnlyPassword | src/context/AuthContext.tsx:94 | two credentials give the same identity exactly when they differ at most in their password |
| AuthContext.SeedWellFormed | src/context/AuthContext.tsx:5-19 | the seed's emails are distinct and entry k has id String(k+1) |
| AuthContext.RegisterKeepsEmailsDistinct | src/context/AuthContext.tsx:77-91 | register keeps the credential emails pairwise distinct |
| AuthContext.RegisterKeepsSequentialIds | src/context/AuthContext.tsx:83-91 | register keeps entry k's id equal to String(k+1) |
| AuthContext.SequentialIdsAreDistinct | src/context/AuthContext.tsx:84 | with sequential ids, no two credentials share an id |
| AuthContext.RegisterThenLogin | src/context/AuthContext.tsx:57-97 | after a successful register(n, e, p), login(e, p) succeeds and yields the identity {String(old length + 1), n, e} |
| AuthContext.LogoutIdempotent | src/context/AuthContext.tsx:100-104 | logging out twice is the same as logging out once |
| AuthContext.StepsKeepConsistent | src/context/AuthContext.tsx:52-104 | login, register and logout keep the flag equal to "an identity is present" and keep the slot holding exactly the current identity |
| AuthContext.RestoreMakesConsistent | src/context/AuthContext.tsx:37-50 | whatever the slot holds at start-up, the session after the restore is consistent |
| AuthContext.ReloadRestoresIdentity | src/context/AuthContext.tsx:37-66 | reloading from a consistent session restores the same identity and flag from the slot, and the credential list returns to the seed |
| AuthContext.LogoutThenReload | src/context/AuthContext.tsx:37-50 | reloading after a logout gives no identity, the flag false and an empty slot |
| AuthContext.SeedLogins | src/context/AuthContext.tsx:5-66 | both seeded accounts log in with 'password123', and their identities carry id, name, email and isAdmin but no password |
| AuthContext.SeedWrongPassword | src/context/AuthContext.tsx:5-69 | in any session whose seeded accounts are intact (`SeedIntact`), any other password for a seeded email is rejected with 'Invalid email or password' |
| AuthContext.SeedIntactInitially | src/context/AuthContext.tsx:5-19 | the start-up session has the two seeded accounts first and distinct emails |
| AuthContext.StepsKeepSeedIntact | src/context/AuthContext.tsx:37-104 | register, login, logout and restore keep the seeded accounts first and the emails distinct, so `SeedWrongPassword` holds after any sequence of them |
| AuthContext.AuthStore.constructor | src/context/AuthContext.tsx:33-35 | a new provider starts with the seed, no identity, the flag false and the slot as given |
| AuthContext.AuthStore.Restore | src/context/AuthContext.tsx:37-50 | the fields change exactly as RestoreStep says |
| AuthContext.AuthStore.Login | src/context/AuthContext.tsx:52-70 | the fields and the outcome are exactly those of LoginStep |
| AuthContext.AuthStore.Register | src/context/AuthContext.tsx:72-98 | the fields (the list is extended with `+`, modelling `push`) and the outcome are exactly those of RegisterStep |
| AuthContext.AuthStore.Logout | src/context/AuthContext.tsx:100-104 | the fields change exactly as LogoutStep says |
| MockStudents.GetStudentByRegNo | src/data/mockStudents.ts:46-48 | a returned record's regNo equals the argument; the result is absent exactly when no record has it; a hit is the first such record in list order |
| MockStudents.SeedRegNosDistinct | src/data/mockStudents.ts:3-44 | the five seeded regNos are pairwise distinct |
| MockStudents.LookupFindsTheUniqueMatch | src/data/mockStudents.ts:3-48 | if record i has the queried regNo, the lookup returns exactly record i |
| MockStudents.SeedRegNoShape | src/data/mockStudents.ts:3-44 | every seeded regNo is six characters, starts with 'S' and ends with a digit |
| MockStudents.PaddedQueryNotFound | src/data/mockStudents.ts:47 | a query that starts or ends with whitespace finds nothing, because the lookup does not trim |
| MockStudents.LookupExamples | src/data/mockStudents.ts:4-47 | 'STU001' returns John Doe's record; 'stu001', ' STU001' and 'NOPE' return nothing |
| HomePage.Search | src/pages/Home.tsx:17-33 | a submit is refused exactly when the input is blank after trimming; otherwise a record is found exactly when the UNTRIMMED input is a seeded regNo, and the record found is the lookup's result |
| HomePage.PaddedQueryNotFound | src/pages/Home.tsx:17-26 | input with surrounding whitespace that is not blank passes the blank check but finds nothing |
| HomePage.SearchExamples | src/pages/Home.tsx:17-29 | 'STU001' finds John Doe; '' and ' \t ' are refused as blank |
| HomePage.Home.constructor | src/pages/Home.tsx:8-11 | the page starts with empty input, no student, no error and no search running |
| HomePage.Home.HandleSearch | src/pages/Home.tsx:13-22 | the error is cleared first; blank input sets 'Please enter a registration number', starts nothing and leaves the student alone; otherwise `isSearching` becomes true and a lookup is scheduled |
| HomePage.Home.CompleteSearch | src/pages/Home.tsx:25-36 | the shown student becomes exactly the lookup's result for the captured input; a miss sets 'No student found with this registration number'; `isSearching` ends false |
| HomePage.Home.Submit | src/pages/Home.tsx:13-37 | a whole submit ends in the state that Search's outcome for the input prescribes |
| RegisterPage.ValidatePassword | src/pages/Register.tsx:17-19 | `validatePassword` is a length rule only (at least 8), so a password that passes it is never empty |
| RegisterPage.PasswordsMatch | src/pages/Register.tsx:21-23 | `passwordsMatch` is exact equality, so a matching confirmation has the same length and passes the length rule exactly when the password does |
| RegisterPage.CheckForm | src/pages/Register.tsx:29-42 | the checks in order, with only the first failure reported: an empty field (whitespace counts as filled), then `validatePassword` (length at least 8), then `passwordsMatch` |
| RegisterPage.WhitespaceCountsAsFilled | src/pages/Register.tsx:29-42 | whitespace-only fields pass the emptiness check |
| RegisterPage.RegisterForm.constructor | src/pages/Register.tsx:7-12 | the form starts with empty fields, no error and not loading |
| RegisterPage.RegisterForm.HandleSubmit | src/pages/Register.tsx:25-52 | a failed check shows its message, does not set loading and leaves the store unchanged; otherwise the store performs register(name, email, password) (confirmPassword is not forwarded); a rejection shows its message, or the fallback if that is empty, which here is always 'Email already in use', and loading returns to false |
| LoginPage.CheckForm | src/pages/Login.tsx:19-22 | the store is called only when both fields are non-empty strings |
| LoginPage.LoginForm.constructor | src/pages/Login.tsx:7-10 | the form starts with empty fields, no error and not loading |
| LoginPage.LoginForm.HandleSubmit | src/pages/Login.tsx:15-32 | the error is cleared first; an empty field sets 'Please fill in all fields' without loading or calling the store; otherwise the store performs login with the untrimmed text, and a rejection shows its message ('Invalid email or password', or the fallback if it were empty) and loading returns to false |
| ContactPage.FormData.Set | src/pages/Contact.tsx:44-47 | editing a field sets that field and leaves the other three unchanged |
| ContactPage.EmailPattern | src/pages/Contact.tsx:24 | characterises `/^\S+@\S+\.\S+$/` without a regex engine: no whitespace anywhere, an `@` after at least one character, a later `.` with at least one character between them and one after; a match has at least five characters and no whitespace at either end |
| ContactPage.EmailPatternNotBlank | src/pages/Contact.tsx:22-26 | an address that matches the pattern is never blank |
| ContactPage.EmailPatternExamples | src/pages/Contact.tsx:24 | addresses that the pattern accepts and rejects, including that `\S` also matches '@' and '.' |
| ContactPage.NameError | src/pages/Contact.tsx:18-20 | the name has an error exactly when it is blank, and the error is 'Name is required' |
| ContactPage.EmailError | src/pages/Contact.tsx:22-26 | 'Email is required' exactly when the email is blank; 'Email is invalid' exactly when it is not blank but the untrimmed text fails `^\S+@\S+\.\S+$`; no error exactly when the pattern matches |
| ContactPage.SubjectError | src/pages/Contact.tsx:28-30 | the subject has an error exactly when it is blank, and the error is 'Subject is required' |
| ContactPage.MessageError | src/pages/Contact.tsx:32-36 | 'Message is required' exactly when the message is blank; otherwise 'Message must be at least 10 characters' exactly when its untrimmed length is below 10 |
| ContactPage.FormErrors | src/pages/Contact.tsx:15-37 | the errors dictionary has an entry for a field exactly when that field has an error, and the entry is that error |
| ContactPage.NoErrorsIffValid | src/pages/Contact.tsx:38-39 | the dictionary is empty exactly when the form is valid: name, subject and message not blank, the email matches the pattern, and the message has at least 10 characters |
| ContactPage.PaddedMessageIsLongEnough | src/pages/Contact.tsx:32-36 | whitespace padding counts towards the ten characters, and ten spaces are still "required" |
| ContactPage.ClearError | src/pages/Contact.tsx:49-55 | an edit keeps the error keys, empties the edited field's entry if it has one, and leaves every other entry unchanged |
| ContactPage.ContactForm.constructor | src/pages/Contact.tsx:5-13 | the form starts empty, with no errors, not submitting and not submitted |
| ContactPage.ContactForm.ValidateForm | src/pages/Contact.tsx:15-40 | the stored dictionary is replaced wholesale by the one built field by field (FormErrors), and the result is true exactly when the form is valid |
| ContactPage.ContactForm.HandleChange | src/pages/Contact.tsx:42-56 | only the edited field changes, and the errors change as ClearError says |
| ContactPage.ContactForm.HandleSubmit | src/pages/Contact.tsx:58-63 | validates; only a valid form starts submitting; the fields and `submitted` are untouched |
| ContactPage.ContactForm.CompleteSend | src/pages/Contact.tsx:65-74 | submitting ends, `submitted` becomes true, and all four fields are emptied |
| ContactPage.ContactForm.Submit | src/pages/Contact.tsx:58-76 | an invalid form leaves fields, `submitted` and `isSubmitting` as they were; a valid one ends with empty fields, `submitted` true and `isSubmitting` false |

## Left out

- Markup and styling: the render parts of every page, `About.tsx`, `Footer.tsx` and `StudentCard.tsx`. `About.tsx`, `Footer.tsx` and `StudentCard.tsx` only display data. The page markup does have behaviour, which the next line describes.
- Browser form behaviour: the handlers are modelled from the moment they are called, and a handler method accepts a call in any state. Two things the markup does before a handler runs are not captured. First, the browser's own form validation cancels the submit, so the handler never runs: when the required terms box is unchecked (`Register.tsx:172-175`), or when a non-empty email field is not a valid address (`type="email"` at `Login.tsx:60`, `Register.tsx:99` and `Contact.tsx:211`; no form sets `noValidate`). For example, Login with the email "abc" never reaches `LoginForm.HandleSubmit`, which would reject it with 'Invalid email or password'. Second, the submit buttons are disabled while a request runs (`Home.tsx:62`, `Login.tsx:107`, `Register.tsx:192`, `Contact.tsx:262`), which blocks a second submit; the methods have no such guard.
- `Navbar.tsx`: a menu-open toggle plus a call to `logout`, which is modelled as `AuthStore.Logout`.
- Browser storage and JSON are not real here: the slot is the `Stored` datatype. The model assumes `JSON.parse(JSON.stringify(u))` gives back `u`, so `Present(u)` is both what login and register write and what the restore reads.
- Stored text that parses to something that is not a user object (for example `null`) is not modelled. In the source it sets `isAuthenticated` to true with a null user. For that reason `Consistent` is proved after the restore only for the three slot kinds above.
- React plumbing is not modelled: context, hooks, `useEffect` scheduling, the `useAuth` undefined check, router navigation after a successful login or register, and `console.error`.
- Timing: events that arrive during a delay are not interleaved with it, for example typing into the field while a search is running. (A second submit cannot happen then, because the button is disabled; see the previous line.) The captured query of the Home callback is the only part of that modelled.
- The input `onChange` setters of Home, Login and Register are not modelled as methods. Those fields are public and a caller assigns them.
- The 'Send another message' button (`Contact.tsx:171`) is not modelled. It only sets `submitted` back to false.
- String lengths count code points. JavaScript's `.length` counts UTF-16 units, so a character outside the Basic Multilingual Plane counts once here and twice in the source. This affects the length-8 password rule and the length-10 message rule.
- The credential list lives in the store object. In the source it is module-level, shared by every provider and reset only by a page reload; `ReloadRestoresIdentity` models the reload by restarting from the seed.
