# picovault in Dafny

A model of the decision logic of picovault, a self-hosted secrets vault. The
model covers its three programs:

- **The `picovault` CLI.** It logs in through an OAuth 2.0 authorization-code
  flow with PKCE (RFC 6749, RFC 7636) on a local callback server. It keeps its
  sessions in a per-user store and injects secrets into a child process's
  environment.
- **The Hono backend.** It accepts Bearer tokens (section 2.1 of RFC 6750) and
  serves the secrets of the caller's organisation.
- **The Next.js/tRPC web app.** It creates, lists, updates and deletes projects
  and versioned secrets behind a role table.

Every operation is a pure function or a small method over immutable values. The
world outside the code becomes explicit inputs:

- the clock: `now`, in integer milliseconds;
- random bytes;
- port availability: a predicate `canBind`;
- replies from the network;
- the session file: `SessionFile`;
- the relational database: `DbSchema.Db`, in-memory tables;
- the child process's exit.

Effects are returned as values: a new file, a new database, a trace of steps, a
redirect. They are not performed.

| file | module | models |
|---|---|---|
| wrappers.dfy | `Wrappers` | `Option` / `Result` with `:-` propagation |
| text.dfy | `Text` | JavaScript string primitives: truthiness, `\|\|`, `indexOf`, first-match `replace`, `split(...)[0]`, ASCII upper-casing |
| session_schema.dfy | `SessionSchema` | the session-file zod schema, its defaults, and parse/serialise |
| session_store.dfy | `SessionStore` | `loadSessions`, `addSession`, `removeSession`, `clearAllSessions`, `getActiveSession` |
| base64url.dfy | `Base64Url` | the base64url encoding in `generateRandomString` (section 5 of RFC 4648, no padding) |
| oauth.dfy | `OAuth` | the authorization URL, the token exchange and refresh, the expiry test, the refresh merge |
| callback_server.dfy | `CallbackServer` | the port search and the one-shot callback handler |
| auth_flow.dfy | `AuthFlow` | the `authenticate` validation chain and `handleOAuthSuccess` |
| url_utils.dfy | `UrlUtils` | `normaliseUrl` |
| environment.dfy | `Environment` | `sanitiseEnvKey`, `prepareEnvironment` |
| api_client.dfy | `ApiClient` | the CLI's HTTP client: base URL, headers, error mapping |
| cli_schemas.dfy | `CliSchemas` | the secrets-response and config schemas |
| login_command.dfy, logout_command.dfy, run_command.dfy | `LoginCommand`, `LogoutCommand`, `RunCommand` | the three commands as outcome values |
| cli_entry.dfy | `CliEntry` | the argv split of `run` at the first `--` |
| backend_auth.dfy | `BackendAuth` | the backend's Bearer middleware |
| backend_secrets.dfy | `BackendSecrets` | `GET /api/secrets`: organisation resolution and secret selection |
| db_schema.dfy | `DbSchema` | the project / secret / secret_version tables, their keys, unique constraints and cascades |
| db_utils.dfy | `DbUtils` | `isUniqueConstraintError` (SQLSTATE 23505) |
| permissions.dfy | `Permissions` | the role / action table |
| trpc.dfy | `Trpc` | the tRPC error formatter, `protectedProcedure` and the permission gate of every procedure, both as intended and as the routers write it (see "## Findings") |
| web_validators.dfy | `WebValidators` | the zod input schemas of the web app |
| web_secrets.dfy | `WebSecrets` | the secrets router: list, create, update with version bump, delete |
| web_projects.dfy | `WebProjects` | the projects router's `create` |
| web_middleware.dfy | `WebMiddleware` | the `/api/picovault/*` rewrite to the backend |
| root_page.dfy | `RootPage` | the root page's redirect decision |

The database invariant is `WebSecrets.Consistent`. It holds when the database
is well formed and the versions agree with the secrets:

- **Well formed:**
  - primary keys are distinct;
  - the three unique constraints hold;
  - every foreign key of the organisation → project → secret → version chain points to an existing row. The `created_by` keys into the user table are not modelled (see "## Left out").
- **Versions agree with secrets:**
  - every secret's `currentVersion` row exists;
  - version numbers are positive;
  - no version is newer than its secret's `currentVersion`.

Create, update and delete are each proved to preserve this invariant.

## Model

| member | source | states |
|---|---|---|
| `SessionSchema.ParseEntry` | apps/cli/src/schema/storage.ts:3-18 | an entry is accepted iff its instance URL is a URL, its e-mail is an e-mail and both timestamps are ISO datetimes; an absent token type becomes "Bearer"; scope and user id are carried over |
| `SessionSchema.ParseEntries` | apps/cli/src/schema/storage.ts:20-27 | a session list parses iff every entry parses, and the result holds each parsed entry in place |
| `SessionSchema.Parse` | apps/cli/src/schema/storage.ts:20-27 | a document parses iff it is an object, every entry parses and an active URL, when present, is a URL; the result holds each parsed entry in place and keeps the active URL |
| `SessionSchema.Serialise` | apps/cli/src/lib/storage.ts:38-49 | the written document has one entry per session in place, with the same URL, an explicit token type and datetime-tagged timestamps, and an active context iff the storage has one |
| `SessionSchema.ParseSerialise` | apps/cli/src/schema/storage.ts:3-27 | serialising a schema-valid storage and parsing it again gives back the same storage |
| `SessionSchema.TokenTypeDefault` | apps/cli/src/schema/storage.ts:8 | the token type of a parsed entry is "Bearer" when absent and the given one otherwise |
| `SessionStore.Load` | apps/cli/src/lib/storage.ts:12-36 | a missing file and a schema-invalid file both load as empty storage; only an unreadable file is an error; whatever loads satisfies the schema |
| `SessionStore.Save` | apps/cli/src/lib/storage.ts:38-49 | saving succeeds iff the storage satisfies the schema, and the saved file loads back as the same storage |
| `SessionStore.FindIndex` | apps/cli/src/lib/storage.ts:54-56 | the index found is the first entry with the URL; none means no entry has it |
| `SessionStore.Lookup` | apps/cli/src/lib/storage.ts:106-110 | the entry found is a stored one with that URL; none means no entry has it |
| `SessionStore.Upsert` | apps/cli/src/lib/storage.ts:54-66 | an existing URL is replaced in place and keeps the length; a new URL is appended at the end; every other entry keeps its position; the active URL becomes the added URL |
| `SessionStore.Without` | apps/cli/src/lib/storage.ts:74-76 | the filtered list holds exactly the entries whose URL differs |
| `SessionStore.Remove` | apps/cli/src/lib/storage.ts:74-85 | no entry with the URL remains and all others remain; an active removed URL moves the pointer to the first remaining entry or clears it; any other pointer is untouched |
| `SessionStore.Active` | apps/cli/src/lib/storage.ts:99-111 | with no pointer the active session is the first one, if any; with a pointer it is the entry with that URL or none, with no fallback to the first |
| `SessionStore.AddSession` | apps/cli/src/lib/storage.ts:51-69 | succeeds iff the file is readable and the upserted storage satisfies the schema; the written file then loads as the old storage with the entry upserted |
| `SessionStore.RemoveSession` | apps/cli/src/lib/storage.ts:71-88 | succeeds iff the file is readable, and the written file loads as the old storage with the URL removed |
| `SessionStore.ClearAllSessions` | apps/cli/src/lib/storage.ts:90-97 | the written file loads as empty storage |
| `SessionStore.GetActiveSession` | apps/cli/src/lib/storage.ts:99-111 | fails only on an unreadable file; otherwise returns the active session of the loaded storage, so a missing file has none |
| `SessionStore.RemovePreservesValid` | apps/cli/src/lib/storage.ts:71-88 | removing a session keeps the storage schema-valid |
| `SessionStore.UpsertThenActive` | apps/cli/src/lib/storage.ts:51-69 | right after an upsert, the active session is the one just added |
| `SessionStore.FindIndexFirst` | apps/cli/src/lib/storage.ts:54-56 | the first entry carrying the URL is the index found |
| `SessionStore.UpsertKeepsUnique` | apps/cli/src/lib/storage.ts:54-62 | if URLs were unique before an upsert they stay unique, and the entry with the added URL is the added entry |
| `SessionStore.UpsertLeavesOthers` | apps/cli/src/lib/storage.ts:54-62 | looking up any other URL gives the same answer before and after an upsert |
| `SessionStore.UpsertKeepsPointer` | apps/cli/src/lib/storage.ts:64-66 | after an upsert the active URL is that of a stored entry |
| `SessionStore.RemoveKeepsPointer` | apps/cli/src/lib/storage.ts:78-85 | removal keeps a consistent pointer consistent |
| `SessionStore.WithoutAppend` | apps/cli/src/lib/storage.ts:74-76 | filtering distributes over concatenation, so relative order is kept |
| `SessionStore.WithoutAbsent` | apps/cli/src/lib/storage.ts:74-76 | filtering out a URL nobody has changes nothing |
| `SessionStore.RemoveOnly` | apps/cli/src/lib/storage.ts:78-85 | removing the only, active session leaves empty storage with no pointer |
| `SessionStore.ActiveExistsWhenConsistent` | apps/cli/src/lib/storage.ts:99-111 | with a consistent pointer there is an active session iff there is any session |
| `SessionStore.DanglingPointerHasNoActive` | apps/cli/src/lib/storage.ts:106-110 | a pointer to an absent URL yields no active session even when sessions exist |
| `SessionStore.SchemaAllowsDuplicates` | apps/cli/src/schema/storage.ts:20-27 | the schema accepts two entries with the same URL, so uniqueness is kept by the operations only |
| `SessionStore.AddSessionThenActive` | apps/cli/src/lib/storage.ts:51-69 | after a successful `addSession`, `getActiveSession` returns the added entry |
| `SessionStore.UpsertPreservesValid` | apps/cli/src/lib/storage.ts:51-69 | upserting a schema-valid entry into schema-valid storage keeps it schema-valid |
| `SessionStore.AddSessionSucceeds` | apps/cli/src/lib/storage.ts:51-69 | on a readable file, adding a schema-valid session succeeds and makes it the active session |
| `CliSchemas.TypeName` | apps/cli/src/schema/secrets.ts:6 | a secret's type is one of "text", "password", "token" |
| `CliSchemas.ParseType` | apps/cli/src/schema/secrets.ts:6 | exactly the three type names parse, each to the type that prints as it |
| `CliSchemas.TypeNameRoundTrip` | apps/cli/src/schema/secrets.ts:6 | parsing a type's name gives the type back |
| `CliSchemas.EmptyConfig` | apps/cli/src/schema/config.ts:3-7 | the empty object is a valid config |
| `Base64Url.UrlValue` | apps/cli/src/lib/oauth.ts:29-38 | decoding a character of the url-safe alphabet inverts its encoding |
| `Base64Url.ReplaceAll` | apps/cli/src/lib/oauth.ts:35-36 | a global character replace keeps the length, turns every occurrence of the old character into the new one, leaves every other character in place, and leaves no old character behind |
| `Base64Url.Btoa` | apps/cli/src/lib/oauth.ts:34 | `btoa` of n bytes has 4·ceiling(n/3) characters |
| `Base64Url.ToUrlSafe` | apps/cli/src/lib/oauth.ts:35-37 | the result holds no '+', '/' or '=', and each of its characters is from the input or is '-' or '_' |
| `Base64Url.Decode` | apps/cli/src/lib/oauth.ts:29-38 | the inverse of the url-safe encoding: a text of length 1 mod 4 is rejected, and a decoded text of n characters gives floor(3n/4) bytes |
| `Base64Url.RemoveAllRemoves` | apps/cli/src/lib/oauth.ts:37 | a global removal leaves no occurrence and adds no character |
| `Base64Url.GenerateRandomString` | apps/cli/src/lib/oauth.ts:29-38 | the state token never contains '+', '/' or '=' |
| `Base64Url.Encode` | apps/cli/src/lib/oauth.ts:29-38 | the reference encoder of section 5 of RFC 4648 emits only url-safe characters |
| `Base64Url.UrlValueOfUrlChar` | apps/cli/src/lib/oauth.ts:35-36 | every sextet's url-safe character decodes to that sextet |
| `Base64Url.GroupRoundTrip` | apps/cli/src/lib/oauth.ts:34 | splitting three bytes into four sextets and joining them gives back the bytes |
| `Base64Url.DecodeEncode` | apps/cli/src/lib/oauth.ts:29-38 | decoding the encoding of any byte string gives it back |
| `Base64Url.EncodeLength` | apps/cli/src/lib/oauth.ts:29-38 | unpadded output has length ceiling(4n/3) |
| `Base64Url.ToUrlSafeQuad` | apps/cli/src/lib/oauth.ts:35-37 | the three replaces turn four standard base64 characters into their url-safe counterparts and leave the rest to be translated on its own |
| `Base64Url.ShortGroupIsEncode` | apps/cli/src/lib/oauth.ts:35-37 | a final group of one or two bytes loses its '=' padding and keeps its url-safe characters |
| `Base64Url.FullGroupIsEncode` | apps/cli/src/lib/oauth.ts:34-37 | a full three-byte group of `btoa` output translates to the reference encoder's four characters |
| `Base64Url.DecodeEncodeGroup` | apps/cli/src/lib/oauth.ts:34 | a full encoded group decodes back to its three bytes ahead of the rest |
| `Base64Url.GenerateIsEncode` | apps/cli/src/lib/oauth.ts:29-38 | `btoa` followed by the three replaces equals base64url without padding, for every input |
| `Base64Url.StateTokenShape` | apps/cli/src/lib/oauth.ts:29-38 | 32 random bytes give a 43-character url-safe token that decodes back to the bytes |
| `OAuth.Lookup` | apps/cli/src/lib/oauth.ts:52-58 | a parameter found is in the list; none means the key is absent |
| `OAuth.RedirectUri` | apps/cli/src/lib/oauth.ts:53 | the redirect URI is "http://localhost:", a decimal numeral whose value is the port and that has no leading zero, then "/callback" |
| `OAuth.BuildAuthorisationUrl` | apps/cli/src/lib/oauth.ts:45-64 | the authorization URL is the instance URL, "/login?", then the encoded query of exactly the authorization parameters |
| `OAuth.ExchangeCodeForTokens` | apps/cli/src/lib/oauth.ts:66-97 | a reply is passed through; a failure becomes "Token exchange failed: …" |
| `OAuth.GetUserInfo` | apps/cli/src/lib/oauth.ts:99-120 | a reply is passed through; a failure becomes "Failed to get user info: …" |
| `OAuth.Refreshed` | apps/cli/src/lib/oauth.ts:148-158 | after a refresh, URL, user, creation time, token type and scope are kept; the access token is new; the refresh token is the new one if non-empty, else the old one; the expiry is now plus `expires_in` (3600 when zero) seconds |
| `OAuth.RefreshAccessToken` | apps/cli/src/lib/oauth.ts:122-163 | a rejected refresh is "Token refresh failed: …" and persists nothing; after an accepted one it succeeds iff storing the merged session succeeds, a store error passes through unchanged, and a success stores the merged session as the active one |
| `OAuth.EnsureValidToken` | apps/cli/src/lib/oauth.ts:174-182 | a token not yet expired is returned unchanged; an expired one is refreshed |
| `OAuth.LookupDistinct` | apps/cli/src/lib/oauth.ts:51-63 | with distinct keys a reader of the query finds each parameter's own value |
| `OAuth.AuthorisationParamsKeys` | apps/cli/src/lib/oauth.ts:51-63 | the query holds exactly the seven parameters of the authorization request, with distinct keys, in the source's order |
| `OAuth.AuthorisationParamsValues` | apps/cli/src/lib/oauth.ts:40-43 | client id, scope, response type and challenge method are fixed, and state and challenge are the given ones |
| `OAuth.RedirectUriAgrees` | apps/cli/src/lib/oauth.ts:53 | the redirect URI of the authorization request equals the one of the code exchange for the same port |
| `OAuth.ExchangeRedirectUri` | apps/cli/src/lib/oauth.ts:79-85 | a reader of the code-exchange form finds the loopback redirect URI for the port |
| `OAuth.ExchangeParamsValues` | apps/cli/src/lib/oauth.ts:79-85 | the code-exchange form has five distinct keys in order, and carries grant type "authorization_code", the code, the client id and the verifier |
| `OAuth.RefreshParamsValues` | apps/cli/src/lib/oauth.ts:131-135 | the refresh form has three keys in order, and carries grant type "refresh_token", the stored refresh token and the client id |
| `OAuth.RefreshSucceeds` | apps/cli/src/lib/oauth.ts:122-163 | on a readable file, an accepted refresh of a schema-valid session succeeds and makes the merged session the active one |
| `Text.NatToStringValue` | apps/cli/src/lib/oauth.ts:53 | the decimal numeral of a number reads back as that number |
| `OAuth.ExpiryBoundary` | apps/cli/src/lib/oauth.ts:165-172 | a token is expired iff it expires within 300000 ms, the boundary itself included |
| `OAuth.RefreshedFreshIff` | apps/cli/src/lib/oauth.ts:148-172 | a session refreshed at a given time is unexpired at that time iff `expires_in` is zero (read as 3600 s) or above the 300-second buffer |
| `OAuth.EnsureValidYieldsFresh` | apps/cli/src/lib/oauth.ts:148-182 | when the reply, if consulted, grants more than the buffer, a successful `ensureValidToken` returns an unexpired session, whether or not a refresh happened |
| `OAuth.EnsureValidIgnoresReplyWhenFresh` | apps/cli/src/lib/oauth.ts:174-182 | for a fresh token no refresh reply can influence the outcome |
| `OAuth.RefreshChangesOnlyTokens` | apps/cli/src/lib/oauth.ts:148-158 | a refreshed session differs from the old one only in access token, refresh token and expiry |
| `CallbackServer.AllowedRedirectUrls` | packages/auth/src/server.ts:70-73 | the provider's allow-list has 100 entries, entry i being the CLI's redirect URI for port 8910 + i; a port's redirect URI is allow-listed iff the port is in [8910, 9010) |
| `OAuth.RedirectUriInjective` | apps/cli/src/lib/oauth.ts:53 | distinct ports give distinct redirect URIs |
| `CallbackServer.FindAvailablePort` | apps/cli/src/lib/server.ts:128-148 | the port found is the first bindable one in [8910, 9010), with an allow-listed redirect URL; failure, "Could not find available port", iff none binds |
| `CallbackServer.Handle` | apps/cli/src/lib/server.ts:71-119 | other paths get 404 and change nothing; once resolved, the success page and no handler; a provider error calls `onError` when given, gets 500 and stays unresolved; otherwise it resolves before calling `onSuccess` |
| `CallbackServer.Serve` | apps/cli/src/lib/server.ts:65-119 | the `resolved` flag never goes back to false |
| `CallbackServer.CountSuccessAppend` | apps/cli/src/lib/server.ts:98-99 | success calls of a concatenated trace add up |
| `CallbackServer.CountSuccessOfReply` | apps/cli/src/lib/server.ts:79-99 | a request calls `onSuccess` exactly when it flips the flag |
| `CallbackServer.SuccessAtMostOnce` | apps/cli/src/lib/server.ts:79-99 | over any request sequence `onSuccess` runs at most once, and only if the flag ends up set |
| `CallbackServer.OtherPathsAreInert` | apps/cli/src/lib/server.ts:74-76 | requests to other paths change nothing and call nothing |
| `CallbackServer.StatusCode` | apps/cli/src/lib/server.ts:74-117 | only the success page is a 2xx answer; an unknown path is a 4xx and a failed authentication a 5xx |
| `AuthFlow.BuildSession` | apps/cli/src/lib/auth.ts:109-130 | the session takes the token type or "Bearer", expires at now plus `expires_in` seconds with no default, drops an empty scope, and takes the user id from `sub` |
| `AuthFlow.OnSuccessHandler` | apps/cli/src/lib/auth.ts:29-80 | the provider error is checked first, then the state, then the code; no exchange without all three passing; a session is stored only after both replies succeed; closing is always the last step; after a success the stored session is the active one |
| `AuthFlow.OnErrorHandler` | apps/cli/src/lib/auth.ts:81-84 | an error closes the server, reports failure and stores nothing |
| `AuthFlow.ReceiveCallback` | apps/cli/src/lib/auth.ts:21-103 | the handler is reached only when the server calls it, and a login succeeds only on the request that resolves the server |
| `AuthFlow.StartAuthentication` | apps/cli/src/lib/auth.ts:21-103 | it fails iff no port binds or `open` rejects, and an `open` rejection is re-thrown as it is; otherwise it listens on the first free port with a 43-character state that decodes to the random bytes, and the authorization URL is built from that state and port |
| `AuthFlow.WrongStateNeverExchanges` | apps/cli/src/lib/auth.ts:38-42 | a missing or unequal state is rejected as invalid whatever the code is |
| `AuthFlow.ProviderErrorAbortsLogin` | apps/cli/src/lib/auth.ts:30-36 | a provider error gets 500, stays unresolved, and the login fails with the provider's message |
| `AuthFlow.SuccessfulLogin` | apps/cli/src/lib/auth.ts:52-79 | for any readable session file, a valid callback with good replies answers with the success page and stores exactly the built session, upserted, as the active one; on a first login it is the only session |
| `UrlUtils.NormaliseUrl` | apps/cli/src/lib/utils.ts:1-11 | a URL with a scheme is kept; localhost and 127.0.0.1 get "http://"; anything else gets "https://" |
| `UrlUtils.NormaliseShape` | apps/cli/src/lib/utils.ts:1-11 | the result always has a scheme and ends with the input |
| `UrlUtils.NormaliseIdempotent` | apps/cli/src/lib/utils.ts:1-11 | normalising twice is normalising once |
| `UrlUtils.TrailingSlashKept` | apps/cli/src/lib/utils.ts:1-11 | a trailing slash is not stripped |
| `Environment.ReplaceInvalid` | apps/cli/src/lib/environment.ts:26 | the length is kept, every output character is in [A-Z0-9_], valid characters stay and invalid ones become '_'; the name is unchanged iff every character was valid |
| `Environment.SanitiseEnvKey` | apps/cli/src/lib/environment.ts:23-34 | the name uses only [A-Z0-9_], never starts with a digit, and is one longer than the key exactly when the key starts with a digit |
| `Environment.CanonicalUnchanged` | apps/cli/src/lib/environment.ts:23-34 | a key already of the form [A-Z_][A-Z0-9_]* is unchanged |
| `Environment.SanitiseIdempotent` | apps/cli/src/lib/environment.ts:23-34 | sanitising twice is sanitising once |
| `Environment.FixedPointIffCanonical` | apps/cli/src/lib/environment.ts:23-34 | a key is unchanged iff it is already canonical |
| `Environment.SanitiseExamples` | apps/cli/src/lib/environment.ts:23-34 | "database_url", "api-key" and "1password" become "DATABASE_URL", "API_KEY" and "_1PASSWORD" |
| `Environment.InjectKeys` | apps/cli/src/lib/environment.ts:6-16 | the environment's names are the base names plus the sanitised secret keys |
| `Environment.InjectKeepsBase` | apps/cli/src/lib/environment.ts:7-15 | a base variable no secret sanitises to keeps its value |
| `Environment.InjectLastWins` | apps/cli/src/lib/environment.ts:9-13 | each sanitised name carries the value of the last secret with that name |
| `Environment.PrepareEnvironment` | apps/cli/src/lib/environment.ts:6-16 | the loop builds the environment: base plus secret names, base values kept unless shadowed, the last secret winning |
| `ApiClient.BaseUrl` | apps/cli/src/lib/api.ts:10 | the base URL drops exactly one trailing '/' and nothing else |
| `ApiClient.SecretsRequest` | apps/cli/src/lib/api.ts:20-33 | the request goes to base URL plus "/api/picovault/secrets", always carries the Bearer token and the JSON content type, and carries the project and organisation headers exactly when those options are non-empty |
| `ApiClient.ErrorMessage` | apps/cli/src/lib/api.ts:41-59 | 401, 403 and 5xx get their fixed messages in that order; otherwise the message, then the status text, then the default |
| `ApiClient.FetchSecrets` | apps/cli/src/lib/api.ts:35-62 | a success returns exactly the response's secrets; a failure returns the mapped message |
| `ApiClient.ErrorMessageNonEmpty` | apps/cli/src/lib/api.ts:41-59 | every error message is non-empty |
| `ApiClient.TrailingSlashIrrelevant` | apps/cli/src/lib/api.ts:10 | one trailing slash on the instance URL does not change the request |
| `ApiClient.OnlyOneSlashStripped` | apps/cli/src/lib/api.ts:10 | of two trailing slashes only one is removed |
| `LoginCommand.ResolveInstance` | apps/cli/src/commands/login.ts:15-44 | an explicit instance is normalised and must be a URL; without one the config's default instance is used as given; invalid options and missing or invalid instances are errors |
| `LoginCommand.CheckUrl` | apps/cli/src/commands/login.ts:34-44 | an instance passes iff it parses as a URL |
| `LoginCommand.FromConfig` | apps/cli/src/commands/login.ts:19-30 | the config's default instance is taken as given, iff it is present, non-empty and a URL |
| `LoginCommand.Login` | apps/cli/src/commands/login.ts:13-55 | any failure exits 1; a resolution error exits before authenticating; otherwise it waits for the browser, with the login page of exactly the resolved instance, iff a port can be bound and `open` resolves; an `open` rejection exits 1 with its message |
| `LoginCommand.ExplicitInstanceIgnoresConfig` | apps/cli/src/commands/login.ts:15-17 | with an explicit instance the config is irrelevant |
| `LoginCommand.ConfigInstanceTakenRaw` | apps/cli/src/commands/login.ts:15-21 | an explicit "localhost:3001" is normalised but the same value from the config is not |
| `LogoutCommand.Removed` | apps/cli/src/commands/logout.ts:26-50 | logging out of a URL writes the old storage minus that URL and exits 0 |
| `LogoutCommand.Logout` | apps/cli/src/commands/logout.ts:16-59 | exit 1 exactly for invalid options or a failure, and then nothing changes; `--all` clears everything; `--instance` logs out of the normalised URL iff a session has it and otherwise reports not logged in to it; with no option the active session is logged out, or "not logged in" when there is none |
| `LogoutCommand.LoggedOutMeansGone` | apps/cli/src/commands/logout.ts:26-50 | after a logout no session for the URL remains |
| `LogoutCommand.LogoutKeepsOthers` | apps/cli/src/commands/logout.ts:26-50 | every other session survives a logout |
| `LogoutCommand.PlainLogoutRemovesActive` | apps/cli/src/commands/logout.ts:43-50 | with no option, the active session is the one logged out |
| `RunCommand.ExecuteCommand` | apps/cli/src/lib/process.ts:3-15 | the child's run succeeds only with exit code 0; anything else rejects with the child's outcome |
| `RunCommand.Run` | apps/cli/src/commands/run.ts:14-97 | an empty command, a store failure, no active session, a failed refresh or a config failure exits 1 before any fetch; otherwise the fetch uses the ensured token and the config's project and organisation; a failed fetch exits 1 with the mapped message; a successful one spawns the command with the secrets injected, and the exit code is 0 iff the child exits 0 |
| `CliEntry.IndexOfElem` | apps/cli/src/index.ts:46 | the index found is the first occurrence; none means absent |
| `CliEntry.CommandArgs` | apps/cli/src/index.ts:39-47 | a missing "--" exits 1; otherwise the command is what follows the first "--" |
| `CliEntry.SplitReassembles` | apps/cli/src/index.ts:46 | argv is a "--"-free prefix, the "--", and the command, in order |
| `CliEntry.LaterSeparatorsKept` | apps/cli/src/index.ts:46 | only the first "--" separates; later ones belong to the command |
| `BackendAuth.BearerToken` | apps/server/src/middleware/auth.ts:28-37 | a token exists iff the header starts with "Bearer ", and prefix plus token is the header |
| `BackendAuth.UserinfoUrl` | apps/server/src/middleware/auth.ts:41 | the userinfo URL is a prefix of the request URL followed by "/api/auth/oauth2/userinfo" |
| `BackendAuth.MapUser` | apps/server/src/middleware/auth.ts:55-61 | the user's id is `sub`; it is verified only for a true `email_verified`; its image is the picture when non-empty, else none |
| `BackendAuth.Authenticate` | apps/server/src/middleware/auth.ts:24-70 | without a Bearer header nothing is requested and the answer is 401; `next` runs iff the userinfo call returns claims, with the mapped user |
| `BackendAuth.UserinfoOnSameOrigin` | apps/server/src/middleware/auth.ts:41 | the userinfo URL is the request's origin part plus the userinfo path |
| `BackendAuth.TokenForwardedVerbatim` | apps/server/src/middleware/auth.ts:28-47 | the token is forwarded unchanged; "Basic" and lower-case "bearer" headers are refused |
| `BackendAuth.MapUserDefaults` | apps/server/src/middleware/auth.ts:55-61 | missing verification and picture default to false and none |
| `BackendSecrets.OrganisationBySlug` | apps/server/src/routes/secrets.ts:49-58 | the organisation found has the slug; none means no organisation has it |
| `BackendSecrets.TargetOrganisation` | apps/server/src/routes/secrets.ts:37-70 | no membership is 403; an unknown slug is 404; a slug of a foreign organisation is 403; a member's slug resolves to its organisation; without a slug the target is the organisation of the first membership row |
| `BackendSecrets.TargetProjects` | apps/server/src/routes/secrets.ts:73-92 | exactly the organisation's projects, restricted to the given id when there is one |
| `BackendSecrets.CollectSecrets` | apps/server/src/routes/secrets.ts:110-134 | exactly the secrets whose current version exists with a non-empty value are listed |
| `BackendSecrets.CollectProjects` | apps/server/src/routes/secrets.ts:97-136 | exactly the listable secrets of the given projects are listed |
| `BackendSecrets.GetSecrets` | apps/server/src/routes/secrets.ts:33-141 | refusals are 403 or 404; a listing happens iff the organisation resolves; every item has a non-empty value and type "text" |
| `BackendSecrets.NoCrossOrganisationRead` | apps/server/src/routes/secrets.ts:37-136 | every listed item comes from a project of an organisation the user belongs to |
| `BackendSecrets.EmptyCurrentValueOmitted` | apps/server/src/routes/secrets.ts:110-134 | a secret without a non-empty current value is never listed |
| `DbSchema.Filter` | packages/db/src/schema/index.ts:34-89 | a `WHERE` keeps exactly the matching rows |
| `DbSchema.FilterDistinct` | packages/db/src/schema/index.ts:27-30 | filtering keeps a column's values distinct |
| `DbSchema.InsertProject` | packages/db/src/schema/index.ts:5-32 | a project insert succeeds iff its id is new, its name is unused within its organisation and the organisation exists; a reused id is reported as the primary-key violation before anything else, and a missing organisation only when nothing else is violated |
| `DbSchema.InsertSecret` | packages/db/src/schema/index.ts:34-62 | a secret insert succeeds iff its id is new, its key is unused within its project and the project exists; a reused id is reported first and a missing project last |
| `DbSchema.InsertVersion` | packages/db/src/schema/index.ts:64-89 | a version insert succeeds iff its id is new, its number is unused for the secret and the secret exists; a reused id is reported first, then a reused number |
| `DbSchema.FindSecret` | packages/db/src/schema/index.ts:34-62 | the row found has the id; none means no secret has it |
| `DbSchema.UpdateSecretRow` | packages/db/src/schema/index.ts:57-60 | a row update succeeds iff no other secret of the project has the new key, and then replaces only that row |
| `DbSchema.UpdateSecretRowKeepsWellFormed` | packages/db/src/schema/index.ts:34-62 | a successful row update keeps keys, unique constraints and foreign keys intact |
| `DbSchema.DeleteSecret` | packages/db/src/schema/index.ts:70-72 | deleting a secret removes it and cascades to exactly its versions; it reports a deleted row iff the secret existed |
| `DbSchema.DeleteProject` | packages/db/src/schema/index.ts:40-42 | deleting a project removes it and cascades to exactly its secrets and their versions; every other version, every organisation and every member is kept |
| `DbSchema.FilterFirst` | apps/server/src/routes/secrets.ts:37-40 | the first row a `WHERE` keeps is the first row of the table that matches |
| `DbSchema.CurrentRows` | packages/db/src/schema/index.ts:64-89 | the current-version join returns exactly the version rows numbered as the secret's current version |
| `DbSchema.CurrentValue` | apps/web/src/server/routers/secrets.ts:83-110 | a secret shows a value only when its current version row exists |
| `DbSchema.CurrentValueIs` | apps/web/src/server/routers/secrets.ts:83-110 | with unique version numbers, the shown value is the current version's value |
| `DbSchema.InsertProjectKeepsWellFormed` | packages/db/src/schema/index.ts:5-32 | a successful project insert keeps the database well formed |
| `DbSchema.InsertSecretKeepsWellFormed` | packages/db/src/schema/index.ts:34-62 | a successful secret insert keeps the database well formed |
| `DbSchema.InsertVersionKeepsWellFormed` | packages/db/src/schema/index.ts:64-89 | a successful version insert keeps the database well formed |
| `DbSchema.DeleteSecretKeepsWellFormed` | packages/db/src/schema/index.ts:70-72 | the delete cascade leaves no dangling version |
| `DbSchema.DeleteProjectKeepsWellFormed` | packages/db/src/schema/index.ts:40-42 | the project delete cascade leaves no dangling secret, and no version with a missing secret |
| `DbUtils.QueryError` | packages/db/src/utils.ts:9-25 | a constraint violation surfaces as a query error whose cause carries its code and constraint |
| `DbUtils.IsUniqueConstraintError` | packages/db/src/utils.ts:9-25 | true iff the error is a query error whose cause has code 23505 and the given constraint |
| `DbUtils.ClassifiesViolations` | packages/db/src/utils.ts:13-22 | a violation is classified as the named unique violation iff it is one |
| `DbUtils.NegativeCases` | packages/db/src/utils.ts:15-24 | a foreign-key violation, a cause without a code, a missing cause and a foreign error are all rejected |
| `DbUtils.DuplicateProjectNameClassified` | packages/db/src/utils.ts:9-25 | a duplicate project name is recognised as the project-name violation and not the secret-key one |
| `Permissions.Granted` | packages/auth/src/permissions.ts:10-40 | every role's actions lie within the declared action set |
| `Permissions.ParseRole` | packages/auth/src/permissions.ts:18-40 | exactly the four role names are roles |
| `Permissions.RoleChain` | packages/auth/src/permissions.ts:10-40 | viewer < member < admin = owner = all actions, on projects and on secrets |
| `Permissions.WhoMayDoWhat` | packages/auth/src/permissions.ts:19-40 | only owners and admins delete; every role reads; a viewer only reads |
| `Trpc.FieldErrorTypeName` | apps/web/src/server/trpc/trpc.ts:5-14 | a field error's type is one of the six names, never "validation" |
| `Trpc.FieldErrorCause` | apps/web/src/server/trpc/trpc.ts:5-14 | a field error carries `field`, `type` and `message` and no `fields` |
| `Trpc.FormatError` | apps/web/src/server/trpc/trpc.ts:28-69 | apart from BAD_REQUEST every extra is null; the zod, field, form and validation errors are each present iff the cause has the matching shape, and then are the cause |
| `Trpc.Protected` | apps/web/src/server/trpc/trpc.ts:76-90 | without a session the procedure fails UNAUTHORIZED; otherwise it continues with the session |
| `Trpc.Gate` | apps/web/src/server/routers/secrets.ts:47-66 | the intended gate: a procedure body runs iff there is a session, the input is valid and the role allows the action; each failure is UNAUTHORIZED, BAD_REQUEST or FORBIDDEN in that order |
| `Trpc.HasPermission` | apps/web/src/server/routers/secrets.ts:52-60 | the permission reply's `success` field is true iff the role allows the action on the resource |
| `Trpc.GateAsWritten` | apps/web/src/server/routers/secrets.ts:52-66 | the gate as the routers write it: the reply object is negated, so it passes iff there is a session and the input is valid, whatever the role |
| `Trpc.GateAsWrittenIgnoresRole` | apps/web/src/server/routers/secrets.ts:61 | the as-written gate gives the same answer for every role, lets through everything the intended gate does, and differs from it exactly when the role lacks the permission |
| `Trpc.FieldErrorNeverValidation` | apps/web/src/server/trpc/trpc.ts:5-14 | a field-error cause is reported as a field error and never as a validation error |
| `Trpc.ZodOnlyAsZodError` | apps/web/src/server/trpc/trpc.ts:36-49 | a zod failure is reported as a zod error only |
| `Trpc.UnauthorisedHasNoData` | apps/web/src/server/trpc/trpc.ts:36-66 | an UNAUTHORIZED error carries no extra data |
| `WebValidators.SlugCharacterisation` | apps/web/src/app/organisations/create/_lib/schemas.ts:12-23 | a slug is valid iff it has 1–50 characters from [a-z0-9-] and starts and ends with a letter or digit |
| `WebValidators.SlugExamples` | apps/web/src/app/organisations/create/_lib/schemas.ts:12-23 | "a" and "a--b" are valid; "", "-", "a-" and "Acme" are not |
| `WebValidators.KeysAreNames` | apps/web/src/server/routers/secrets.ts:12-21 | every valid secret key is also a valid name |
| `WebValidators.NameNotKey` | apps/web/src/server/routers/projects.ts:12-19 | names allow whitespace, which keys do not |
| `WebValidators.WebKeysSanitiseToUpperCase` | apps/web/src/server/routers/secrets.ts:12-21 | a key the web app accepts reaches the child's environment upper-cased, with '_' added before a leading digit |
| `WebSecrets.WriteFailure` | apps/web/src/server/routers/secrets.ts:173-192 | a unique-key violation becomes BAD_REQUEST with a field error on "key"; anything else becomes INTERNAL_SERVER_ERROR |
| `WebSecrets.ListViews` | apps/web/src/server/routers/secrets.ts:83-110 | each listed row is shown with its current version's value |
| `WebSecrets.List` | apps/web/src/server/routers/secrets.ts:48-113 | the list succeeds iff the gate passes, and then lists exactly the project's secrets, each with its current value |
| `WebSecrets.NewSecret` | apps/web/src/server/routers/secrets.ts:146-155 | a new secret starts at version 1 with the input's key, project and description |
| `WebSecrets.NewVersion` | apps/web/src/server/routers/secrets.ts:158-164 | a version row records the secret, its number and the value |
| `WebSecrets.CreateTx` | apps/web/src/server/routers/secrets.ts:144-167 | the create transaction commits iff the secret id is fresh, the key is free in the project, the project exists and the version id is fresh; it then adds exactly the secret at version 1 and its first version; a duplicate key is the unique-key violation |
| `WebSecrets.Create` | apps/web/src/server/routers/secrets.ts:115-193 | any failure leaves the database unchanged; it succeeds iff there is a session, the input is valid, the role may create, and the ids are fresh, the key is free in the project and the project exists; no session or no permission fails before writing |
| `WebSecrets.Patched` | apps/web/src/server/routers/secrets.ts:235-246 | an update changes key and description only when provided, stamps the time, and keeps id, project, version and creator |
| `WebSecrets.SetCurrentVersion` | apps/web/src/server/routers/secrets.ts:258-266 | only the one secret's current version changes |
| `WebSecrets.UpdateTx` | apps/web/src/server/routers/secrets.ts:233-271 | the update transaction commits iff the new key is free in the project and a new version's ids are free; the row is then patched, and the database is the patched row alone or, with a value, also version n+1 made current; a taken key is the unique-key violation |
| `WebSecrets.Update` | apps/web/src/server/routers/secrets.ts:195-297 | any failure leaves the database unchanged; a found secret is updated iff the new key is free in the project and a new version's ids are free, and the row is then patched; a key taken by another secret is BAD_REQUEST with a field error on "key"; a missing secret is INTERNAL_SERVER_ERROR "Failed to update secret", because the catch swallows the NOT_FOUND thrown inside the `try` |
| `WebSecrets.Delete` | apps/web/src/server/routers/secrets.ts:299-341 | with the intended gate: the delete succeeds iff the gate passes and the secret exists, and then removes it with its versions; a role without delete permission gets FORBIDDEN and nothing changes |
| `WebSecrets.DeleteAsWritten` | apps/web/src/server/routers/secrets.ts:299-341 | as written: the delete succeeds iff there is a session, the id is non-empty and the secret exists, whatever the role |
| `WebSecrets.ViewerDeletesAsWritten` | apps/web/src/server/routers/secrets.ts:303-332 | as written, a viewer deletes an existing secret and it is gone; the intended delete answers FORBIDDEN and leaves the database unchanged |
| `WebSecrets.SetCurrentVersionKeepsWellFormed` | packages/db/src/schema/index.ts:34-62 | moving the version pointer keeps the database well formed |
| `WebSecrets.AppendedCurrentVersionsExist` | apps/web/src/server/routers/secrets.ts:146-164 | after a new secret and its version 1 are inserted, every secret's current version row exists |
| `WebSecrets.AppendedVersionsBounded` | apps/web/src/server/routers/secrets.ts:146-164 | after a new secret and its version 1 are inserted, no version is numbered above its secret's current one |
| `WebSecrets.CreateKeepsConsistent` | apps/web/src/server/routers/secrets.ts:144-167 | create keeps every secret's current version row present and no version ahead of its secret |
| `WebSecrets.RowUpdateKeepsConsistent` | apps/web/src/server/routers/secrets.ts:235-246 | a metadata update keeps the database consistent |
| `WebSecrets.BumpKeepsConsistent` | apps/web/src/server/routers/secrets.ts:248-267 | inserting version n+1 and moving the pointer to it keeps the database consistent |
| `WebSecrets.UpdateTxKeepsConsistent` | apps/web/src/server/routers/secrets.ts:233-271 | the update transaction keeps the database consistent |
| `WebSecrets.UpdateKeepsConsistent` | apps/web/src/server/routers/secrets.ts:195-297 | update, successful or not, keeps the database consistent |
| `WebSecrets.DropKeepsVersionsConsistent` | packages/db/src/schema/index.ts:70-72 | dropping a secret with exactly its versions keeps versions and secrets in agreement |
| `WebSecrets.DeleteSecretKeepsConsistent` | packages/db/src/schema/index.ts:70-72 | the delete cascade keeps the database consistent |
| `WebSecrets.DeleteKeepsConsistent` | apps/web/src/server/routers/secrets.ts:299-341 | delete, successful or not, keeps the database consistent |
| `WebSecrets.BumpShowsValue` | apps/web/src/server/routers/secrets.ts:248-267 | after a bump, the secret's current value is the new version's value |
| `WebSecrets.UpdateTxVersioning` | apps/web/src/server/routers/secrets.ts:248-267 | with a value, the current version becomes the old one plus 1 and shows the new value; without one, version and versions are unchanged |
| `WebSecrets.UpdateVersioning` | apps/web/src/server/routers/secrets.ts:195-297 | a successful update targets an existing secret; with a value its version is bumped by one and the new value becomes current; without a value the versions are untouched |
| `WebSecrets.CreateThenList` | apps/web/src/server/routers/secrets.ts:48-193 | a secret just created is listed in its project with its value |
| `WebSecrets.DeleteRemovesVersions` | apps/web/src/server/routers/secrets.ts:322-332 | after a delete the secret is gone and exactly its versions went with it |
| `WebProjects.NewProject` | apps/web/src/server/routers/projects.ts:50-60 | a new project has the given id, organisation, name, description and creator |
| `WebProjects.InsertFailure` | apps/web/src/server/routers/projects.ts:61-81 | a duplicate name within the organisation is BAD_REQUEST with a field error on "name"; anything else is INTERNAL_SERVER_ERROR |
| `WebProjects.Create` | apps/web/src/server/routers/projects.ts:25-83 | a failure leaves the database unchanged; no session or no permission fails before writing; it succeeds iff the gate passes and the insert satisfies every constraint |
| `WebProjects.DuplicateNameIsFieldError` | apps/web/src/server/routers/projects.ts:61-81 | a name taken in the organisation surfaces as a field error on "name" |
| `WebProjects.CreateKeepsWellFormed` | packages/db/src/schema/index.ts:5-32 | project creation keeps the database well formed |
| `WebProjects.NamesAreScopedToOrganisation` | packages/db/src/schema/index.ts:27-30 | a name is free in an organisation with no projects, whatever other organisations use |
| `WebMiddleware.ServerUrl` | apps/web/src/middleware.ts:14-15 | the server URL is the configured one, or "http://localhost:3000" when unset or empty |
| `WebMiddleware.Rewrite` | apps/web/src/middleware.ts:18-22 | the target is the server URL, the path with the first "/picovault" removed, and the unchanged search string |
| `WebMiddleware.MatchedSegmentIndex` | apps/web/src/middleware.ts:19 | in a matched path the first "/picovault" is found at index 4, right after "/api" |
| `WebMiddleware.MatchedPathReachesApi` | apps/web/src/middleware.ts:3-5 | every matched path reaches the backend's `/api` tree |
| `WebMiddleware.SecretsRouteForwarded` | apps/web/src/middleware.ts:18-22 | "/api/picovault/secrets" reaches the backend's "/api/secrets" |
| `WebMiddleware.OnlyFirstSegmentRemoved` | apps/web/src/middleware.ts:19 | a second "/picovault" in the path stays |
| `RootPage.FindOrg` | apps/web/src/app/page.tsx:28 | the organisation found has the id; none means no organisation has it |
| `RootPage.Decide` | apps/web/src/app/page.tsx:6-50 | no session goes to "/login"; no organisation goes to "/organisations/create"; an active organisation with a slug is opened; otherwise the first organisation becomes active and is opened by its slug, or the create page when it has none |
| `RootPage.RedirectTargets` | apps/web/src/app/page.tsx:6-50 | the redirect is always "/login", "/organisations/create" or an organisation's slug path |
| `RootPage.FirstOrganisationOpened` | apps/web/src/app/page.tsx:35-50 | with no active organisation, the first one is made active and opened |
| `RootPage.SluglessActiveFallsBack` | apps/web/src/app/page.tsx:24-50 | an active organisation without a slug falls back to the first organisation |

## Left out

- File I/O of the session store: creating the directory, writing the file and `chmod 600`. The store is an in-memory `SessionFile` value; an I/O failure is its `Unreadable` case.
- A JSON syntax error in the session file is re-thrown, not failed open. The model folds it into `Unreadable`. Only a schema failure loads as empty storage.
- The encoded query string: `URLSearchParams` percent-encoding is a parameter `enc`. The parameter list it encodes is modelled exactly.
- Randomness and SHA-256: the 32 random bytes and the PKCE verifier/challenge are inputs. Only the base64url step is computed.
- The clock and ISO-8601 text: timestamps are integer milliseconds. The "is an ISO datetime" check is a tag on the raw value.
- URL and e-mail validity (`z.url()`, `z.email()`, `new URL`) are predicates in `Formats` or `isUrl`, not parsers.
- Sockets, `Bun.serve`, the one-second auto-close timer and response bodies. Ports are a predicate `canBind`; responses are status tags.
- The 400 response of the callback server for an unparseable query is not modelled. `searchParams.get` yields a string or null, and every schema field is nullable and optional, so that parse cannot fail.
- Network calls (`betterFetch`, `fetch`), the browser launch (`open`), the database engine and its transactions. Their outcomes are inputs, and the tables are sequences. For `open`, only whether it rejects, and with what message, is an input.
- The "encryption" of secret values is a base64 placeholder in both routers. Both sides are modelled as the identity, so the stored value is the shown value.
- DbSchema.WellFormed: the three `created_by` foreign keys (`project`, `secret` and `secret_version` to `user.id`, each `onDelete: "cascade"`) are not modelled. The model has no user table, so neither those keys nor the cascade from deleting a user is stated.
- `WebSecrets.List`: the `desc(createdAt)` ordering is not modelled. The list is stated as a set: sound and complete, in table order.
- `WebSecrets.Update`: the response echoes the row read before the version bump, as the code does. Its `currentVersion` is the old one.
- `BackendSecrets.GetSecrets`: the 500 for an exception thrown by the database is not modelled, because the database is a value.
- `BackendAuth.Authenticate`: a userinfo reply that fails the user schema is modelled as `Thrown`, a 401, as in the code.
- `WebMiddleware.Rewrite`: parsing the result with `new URL` is not modelled; the function returns the concatenated text.
- Trpc.Gate: the BAD_REQUEST for input that fails its zod schema carries a placeholder, the message "Invalid input" and an empty issue list. tRPC's input parser instead throws with the ZodError as cause: the message is the ZodError's own, and the formatter returns its real `flatten()`. The same placeholder is used by `Trpc.GateAsWritten`. Only the code and the fact that a zod error is reported are modelled.
- The permission check's answer is modelled as a reply whose `success` field is `Allows(role, resource, action)`. The auth library's other reply fields and the errors it throws (for instance without an active organisation) are not modelled.
- BackendSecrets.CollectProjects: rows come in table order. The queries have no `ORDER BY`, so SQL promises no order; only which secrets are listed is stated, not their order, although a later key that sanitises like an earlier one wins in the child's environment.
- BackendSecrets.GetSecrets: the order of the listed items is not stated, for the same reason. The "first membership" of `TargetOrganisation` is likewise the first row in table order.
- OAuth.Refreshed: `expires_in` is an integer number of seconds. The schema's `z.number()` also admits fractions and huge values, and `toISOString` throws a RangeError for a time out of range; neither is modelled. Its `now` is the reading `isTokenExpired` took, not a second reading after the token request.
- OAuth.EnsureValidToken: the source reads the clock twice, once in `isTokenExpired` and once, after the awaited token request, for the refreshed expiry. The model takes both as one `now`, so the time the request takes is not modelled; `OAuth.Refreshed` and `OAuth.RefreshAccessToken` receive that same `now`.
- BuildSession: same integer `expires_in` as `OAuth.Refreshed`. The source reads the clock twice, once for the expiry and once for `createdAt`; the model takes both as one `now`.
- WebValidators.ValidDescription: the 500-character limit counts characters (code points), while zod's `.max(500)` counts UTF-16 code units. A description of 300 characters outside the Basic Multilingual Plane is rejected by the source and accepted by the model.
- The library's base statements (`ownerAc`, `adminAc`, `memberAc`) and the organisation/member/invitation resources are not modelled. Only the project and secret actions are.
- `RunCommand.Run`: the exit code is 0 or 1, not the child's own code. The child runs through `execa`, which rejects on a non-zero exit, and the catch exits 1.
- The `--instance` option of `run` is accepted and ignored, so the model has no such parameter.
- Upper-casing and the `\s` class are ASCII only. JavaScript's Unicode case mapping and Unicode whitespace are not modelled.
- Console, spinner and colour output; commander parsing, beyond a mistyped option being an `InvalidOptions` case; cosmiconfig loading (config.ts), whose result is an input.
- React pages and components other than the root page's decision, and the tRPC/Hono/Next wiring and environment parsing: these are framework plumbing with no decision logic of their own.

## Findings

| source | as written | input that shows it | evidently intended | confidence | as-written member | corrected member |
|---|---|---|---|---|---|---|
| apps/web/src/server/routers/secrets.ts:303-318 | `if (!hasPermission)` negates the reply object the auth library returns, which is always truthy, so FORBIDDEN is never raised; the same test is at secrets.ts:61, 130, 210 and projects.ts:40 | a signed-in viewer calls `secrets.delete` with the id of an existing secret: the secret and its versions are deleted | test the reply's `success` field, so a role without the permission gets FORBIDDEN and nothing is written | high, not executed | `WebSecrets.ViewerDeletesAsWritten` (over `WebSecrets.DeleteAsWritten` and `Trpc.GateAsWritten`) | `Trpc.Gate`, used by `WebSecrets.Delete` and the other procedures |
