# Simulated authentication: credential store, session manager and the two forms

This project models the client-side authentication core of a small single-page
application. Accounts live in the browser's local storage under the key `"users"`;
the current session lives under `"currentUser"` and is mirrored in memory. The model
covers three parts:

- the `AuthService`, which offers register, login, logout, `isAuthenticated` and the
  `currentUserValue` getter;
- the field rules and submit handlers of the registration and login forms;
- the dashboard route guard, modelled from its test alone because its source is not
  part of this model.

Modules, one per source file or collaborator:

- `Wrappers`: `Option` and `Result`.
- `Routing`: a `Router` class whose `log` records every navigation request. The
  service, the components and the guard may share one router.
- `Auth` (`auth.service.ts`): the records (`User`; `Profile`, which is a user whose
  password may be absent), the storage blob `UsersBlob` (`Absent | Stored | Corrupt`),
  the lookups `EmailTaken` (`some`) and `Find` (`find`), and the specification
  functions `RegisterStep` and `LoginStep`. The class `AuthService` has one field
  per storage key plus the subject's latest value. Each of its methods is written
  step by step like the source, and its postcondition ties the new state to the
  matching specification function.
- `Forms`: the semantics of Angular's `required`, `minLength` and `email` validators, with lengths counted in UTF-16 code units as JavaScript does.
  An empty value is reported only by `required`. The email pattern is a parameter
  `isEmail`. `DisplayMessage` is the `error.message || fallback` choice.
- `Register` (`register.component.ts`) and `Login` (`login.component.ts`): the form
  values, the rules per control, form validity, and the component classes with
  `isLoading`, `errorMessage` and a `touched` flag for `markAllAsTouched`.
- `Guard`: `AuthGuard.CanActivate`.
- `Scenarios`: client code that replays the service's test expectations and a form
  registration. It uses only the contracts above.

Sources and specification disagree in three places; the model follows the code:

- Register checks that the email is free before it checks that the passwords match,
  so "Email already exists" wins when both checks fail.
- A stored session that cannot be parsed makes the constructor throw. It is not read
  as "no session": the parse at start-up sits outside any `try`.
- Ids are not guaranteed to be unique. The model takes the id as a parameter and
  claims nothing about it.

Every error message the service produces is non-empty. So, with this service, the
components' fallback messages are never the ones shown; the component contracts
still state the fallback for any message.

## Model

| member | source | states |
|---|---|---|
| `Auth.EmailTaken` | src/app/services/auth.service.ts:32 | true exactly when some stored account has that email, compared exactly |
| `Auth.Find` | src/app/services/auth.service.ts:59 | nothing when no account matches both email and password; otherwise an account at the first index where both match |
| `Auth.FirstMatchUnique` | src/app/services/auth.service.ts:59 | the first matching index is unique, so the account login picks is determined |
| `Auth.RegisterStep` | src/app/services/auth.service.ts:29-53 | corrupt storage gives "Registration failed. Please try again."; a taken email gives "Email already exists" even when the passwords also differ; a free email with different passwords gives "Passwords do not match"; success happens exactly when the email is free and the passwords are equal, and then the collection is the old one plus one record at the end carrying the given name, email and password; unique emails stay unique; every failure is one of the three messages |
| `Auth.LoginStep` | src/app/services/auth.service.ts:56-73 | corrupt storage gives "Login failed. Please try again."; otherwise success happens exactly when some account matches email and password; the session is then the first such account without its password; failure is "Invalid email or password" |
| `Auth.RegisterTwiceFails` | src/app/services/auth.service.ts:31-47 | after a successful registration, any second registration with the same email fails with "Email already exists" |
| `Auth.RegisterThenLogin` | src/app/services/auth.service.ts:40-64 | after a successful registration, logging in with the same email and password succeeds, and the session is the new record without its password |
| `Auth.AuthService.constructor` | src/app/services/auth.service.ts:19-23 | the current user is exactly the stored record, which may still carry a password; memory and storage agree |
| `Auth.AuthService.CurrentUserValue` | src/app/services/auth.service.ts:25-27 | while memory and storage agree, the getter returns the persisted session |
| `Auth.AuthService.IsAuthenticated` | src/app/services/auth.service.ts:81-83 | true exactly when a current user is present, and so exactly when a session is persisted |
| `Auth.AuthService.Register` | src/app/services/auth.service.ts:29-54 | returns what `RegisterStep` decides; on success the new collection is written and `/login` is logged; on failure storage and the log are unchanged; the session is never touched |
| `Auth.AuthService.Login` | src/app/services/auth.service.ts:56-73 | on success the stored and in-memory sessions both become `LoginStep`'s session, replacing any earlier one, and `/dashboard` is logged; on failure the session and the log are unchanged; the users collection is never changed |
| `Auth.AuthService.Logout` | src/app/services/auth.service.ts:75-79 | from any state: no session stored or in memory, not authenticated, `/login` appended to the log, the users collection unchanged |
| `Forms.ControlErrors` | src/app/components/register/register.component.ts:31-34 | no errors exactly when every validator of the control passes; each failing validator's error is reported, and only those |
| `Forms.DisplayMessage` | src/app/components/register/register.component.ts:73-74 | the error's message when it is non-empty, otherwise the fallback; never empty when the fallback is non-empty |
| `Register.PasswordMatchValidator` | src/app/components/register/register.component.ts:55-59 | no error exactly when password and confirmation are equal |
| `Register.FullNameRule` | src/app/components/register/register.component.ts:31 | the name is valid exactly when its JavaScript length (UTF-16 code units) is at least 3; an empty one reports `required`, a shorter one `minlength` with that length |
| `Forms.JsLength` | src/app/components/register/register.component.ts:31 | the length `minLength` reads: at least the number of characters and at most twice it, zero exactly for the empty string |
| `Register.AstralCharacterCountsTwice` | src/app/components/register/register.component.ts:31 | an emoji followed by one letter has JavaScript length 3 and so is a valid full name |
| `Register.EmailRule` | src/app/components/register/register.component.ts:32 | the email is valid exactly when it is non-empty and matches the address pattern; an empty one reports `required`, a malformed one `email` |
| `Register.PasswordRule` | src/app/components/register/register.component.ts:33 | the password is valid exactly when its JavaScript length (UTF-16 code units) is at least 6; an empty one reports `required`, a shorter one `minlength` with that length |
| `Register.ConfirmPasswordRule` | src/app/components/register/register.component.ts:34 | the confirmation is valid exactly when it is non-empty |
| `Register.FormValidIff` | src/app/components/register/register.component.ts:29-39 | the form is valid exactly when the name has JavaScript length at least 3, the email is non-empty and well-formed, the password has JavaScript length at least 6 and equals the confirmation |
| `Register.RegisterComponent.constructor` | src/app/components/register/register.component.ts:20-40 | all four controls are empty and the form is invalid; no error message, not loading, not touched |
| `Register.RegisterComponent.OnSubmit` | src/app/components/register/register.component.ts:61-80 | an invalid form only sets touched, so service, log, loading flag and message are as before; a valid one runs `RegisterStep` on the form's four values and ends not loading; on success the message is cleared, the collection is written and `/login` is navigated twice (service and component); on failure the message is the service's message or "Registration failed. Please try again." and storage is unchanged |
| `Login.FormValidIff` | src/app/components/login/login.component.ts:29-32 | the form is valid exactly when the email is non-empty and well-formed and the password has JavaScript length at least 6; a malformed email reports `email`, a short non-empty password `minlength` |
| `Login.LoginComponent.constructor` | src/app/components/login/login.component.ts:20-33 | both controls are empty and the form is invalid; no error message, not loading, not touched |
| `Login.LoginComponent.OnSubmit` | src/app/components/login/login.component.ts:35-54 | an invalid form only sets touched and the service is not called; a valid one runs `LoginStep` on exactly the form's email and password and ends not loading; on success the message stays empty and the session is stored; on failure the message is the service's message or "Invalid email or password" and the session is unchanged |
| `Guard.AuthGuard.CanActivate` | src/app/guards/auth.guard.spec.ts:35-51 | returns whether the user is authenticated; if so nothing is navigated, otherwise exactly `/login` is appended to the log (modelled from the test only) |
| `Scenarios.SessionLifecycle` | src/app/services/auth.service.spec.ts:40-168 | from the service contracts alone: one registration adds one record, a repeated email fails, a fresh email with a mismatched confirmation fails, a wrong password fails, the right one sets the session without password, the guard refuses before and admits after login, and logout ends the session |
| `Scenarios.RegisterThroughForm` | src/app/components/register/register.component.spec.ts:112-123 | a valid form submitted through the component leaves no message, ends not loading, and navigates to `/login` twice |

## Left out

- Id generation (`Math.random().toString(36).substr(2, 9)`): the id is the `id` parameter of `Register` and `OnSubmit`. Nothing is claimed about its uniqueness or form, since the code guarantees neither.
- `localStorage`, `JSON.parse` and `JSON.stringify`: each key is a value. `Corrupt` is a `"users"` blob whose `JSON.parse` fails or that is not an array.
- A stored collection with entries that are not well-formed account records (a `null` entry, a missing or non-string field) is outside the model. With such entries the source's answer depends on the query, because `some` and `find` stop at the first hit: a `null` after the matching account throws only for lookups that reach it.
- A failing `localStorage.setItem` (a full quota, say) is also caught by the catch-all branches; in the model every write succeeds.
- The constructor's unguarded parse of `"currentUser"`: it takes the already parsed record. The exception a malformed record would raise is not modelled.
- RxJS: the `BehaviorSubject`'s broadcasting to subscribers is not modelled, only its latest value. The observables returned by `of`/`throwError` are results produced synchronously.
- Register.RegisterComponent.OnSubmit: states the state after the synchronous callbacks only; that `isLoading` is true while the call is pending is not stated.
- Login.LoginComponent.OnSubmit: states the state after the synchronous callbacks only; that `isLoading` is true while the call is pending is not stated.
- Angular's `Validators.email` pattern lives in the framework: it is the predicate `isEmail`. The `required` and `minLength` semantics follow Angular's documented behaviour; `minLength` compares the JavaScript string length, in UTF-16 code units (`Forms.JsLength`).
- `markAllAsTouched` is one `touched` flag for the whole form, not one per control.
- The errors raised by the service are modelled by their message string only.
- The guard's source (`auth.guard.ts`) is not part of this model. Its test fixes the behaviour. Because `IsAuthenticated` cannot fail here, the model cannot show an exception from it propagating through the guard.
- The dashboard component, templates, CSS, the framework's dependency injection and test scaffolding, and the cross-tab read-modify-write race on `"users"` are not modelled.
