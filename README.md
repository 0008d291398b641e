# Noiva watch-party core, modelled in Dafny

Noiva is a watch-party web application. Users sign in, open a room, and
watch a film together while the player stays in sync and they chat. This
project models the parts of the application that make decisions:

- **Two real-time hubs.**
  - The standalone Socket.IO process (`SocketServer`) keeps one map of rooms. Each room has a host id, a roster of users keyed by user id, and a cached video state. It handles join, play/pause, seek, progress, leave and disconnect.
  - The Socket.IO server started from the Next.js route (`SocketRoute`) keeps a map from room id to an array of users. It handles join, leave, video-action relay, chat and disconnect.
  - Both hubs are classes whose fields are the rooms, their insertion order, and an outbox of emitted events. Each handler is a method proved equal to a specification function on the hub's value. Lemmas about those functions state what the handlers guarantee. The shared roster operations live in `Presence`.
- **Database helpers** (`Db`): reading a room, building the `UPDATE rooms` statement, and keeping each user's recent and hosted room lists.
- **Recent rooms** (`RecentRooms`): the route that returns a user's visited rooms in visit order.
- **Authentication.**
  - `Auth` converts the Supabase user into the application's record and maps error messages to Portuguese texts.
  - The four forms validate their fields: `SignupForm`, `LoginForm`, `UpdatePasswordPage` and `ForgotPasswordPage`. `EmailPattern` proves two executable checks equal to the two regular expressions the forms use.
  - `Middleware` decides which paths skip the session check.
  - `AuthCallback` reads the redirect cookie after an OAuth login.
- **Browser client** (`SupabaseClient`): the cached client singleton, and the cookie `get`, `set` and `remove` adapter.
- **Films**: `Movies` holds the catalogue entry type and the lookups over any list of entries. `Catalog` holds the built-in catalogue of eight films and its three lookups. `MovieCatalog` holds the search filter and the duration label, and `MovieCatalogView` applies the filter to the catalogue.
- **Storage** (`Storage`): the blob name an upload is stored under, the metadata returned, and the URLs of the simulated storage service.

`Strings` models the JavaScript string operations used throughout: `includes`, `startsWith`, `indexOf`, `split`, `join`, ASCII `toLowerCase`, the `\s` class and number formatting. `Wrappers` holds `Option`.

### Behaviour of the code worth knowing

- The two hubs do not agree on hosts.
  - `SocketServer` keeps one host id. A join takes the host id only when it is vacant. Yet any user flagged `isHost` by its own client may control playback.
  - `SocketRoute` does no arbitration: two users who both ask to be host are both flagged (`SocketRoute.JoinAllowsTwoHosts`).
  - A route disconnect promotes the next user only when the leaver was flagged, so a room can survive with nobody flagged (`SocketRoute.DisconnectCanLeaveNoHost`). A route leave always leaves a flagged host.
- The route relays `video-action` from anyone, with no host check (`SocketRoute.VideoActionIsUnchecked`).
- `formatDuration` uses JavaScript `%`. A negative duration therefore reads "-1h -30min" (`MovieCatalog.NegativeDurationLabel`).

## Model

| member | source | states |
|---|---|---|
| SocketServer.AfterJoin | src/server/socketServer.js:27-68 | the join-room state; JoinCreatesRoom, JoinHostArbitration, JoinUpsertsUser and JoinEmits state what it does |
| SocketServer.JoinCreatesRoom | src/server/socketServer.js:34-44 | a join to an unknown room appends it to the room order, not playing, at position 0, stamped now, with the joiner as host id iff they asked and as the only user |
| SocketServer.JoinHostArbitration | src/server/socketServer.js:49-51 | a set, non-empty host id is never overwritten; a vacant one goes to a joiner who asked to be host; otherwise it stays |
| SocketServer.JoinUpsertsUser | src/server/socketServer.js:54-60 | a rejoining user id keeps its roster position and that entry becomes the new record (name, photo, socket id, flag), the others unchanged and no second entry; a new id is appended |
| SocketServer.JoinEmits | src/server/socketServer.js:62-67 | a join sends the room's whole user list to the room and then the cached video state to the joining socket; an existing room keeps its video state and the room order; other rooms are untouched |
| SocketServer.JoinKeepsInvariant | src/server/socketServer.js:27-68 | join-room keeps the hub invariant: room order without repeats and in step with the rooms, no empty room, distinct user ids per room, a host id among the room's users |
| SocketServer.AfterPlayPause | src/server/socketServer.js:71-87 | the play/pause state; NonControllerIsIgnored and ControllerIsRelayed state what it does |
| SocketServer.AfterSeek | src/server/socketServer.js:90-106 | the seek state; NonControllerIsIgnored and ControllerIsRelayed state what it does |
| SocketServer.AfterProgress | src/server/socketServer.js:109-129 | the progress state from two clock readings; NonControllerIsIgnored and ProgressThrottle state what it does |
| SocketServer.NonControllerIsIgnored | src/server/socketServer.js:71-129 | in an unknown room, or from a sender neither flagged isHost nor the host id, play/pause, seek and progress change nothing and emit nothing |
| SocketServer.ControllerIsRelayed | src/server/socketServer.js:71-106 | an accepted play/pause (seek) sets only isPlaying (currentTime) and the stamp of that room; users, host id, the other field, other rooms and the order stay; exactly one event goes to the room except the sender |
| SocketServer.ProgressThrottle | src/server/socketServer.js:116-128 | a controller's progress sets time and playing and nothing else but the stamp; when more than 5000 ms have passed the second clock reading becomes the stamp and one progress update with the time and flag goes to the room except the sender; otherwise the stamp stays and nothing is sent |
| SocketServer.PlaybackKeepsInvariant | src/server/socketServer.js:71-129 | the three playback handlers keep the hub invariant |
| SocketServer.AfterUserLeft | src/server/socketServer.js:152-183 | the handleUserDisconnect state; LeaveMigratesHost and UserLeftIsLocal state what it does |
| SocketServer.LeaveMigratesHost | src/server/socketServer.js:152-183 | the leaver's entry alone is removed, the others in order; an emptied room is deleted with nothing sent; when the host id leaves, the first remaining user becomes host id and is flagged, gets the host-update, and then the room gets the new list; otherwise only the list changes and is sent; the order and other rooms stay |
| SocketServer.UserLeftKeepsInvariant | src/server/socketServer.js:152-183 | handleUserDisconnect keeps the hub invariant |
| SocketServer.UserLeftIsLocal | src/server/socketServer.js:152-183 | leaving one room leaves every other room as it was |
| SocketServer.DisconnectInRoom | src/server/socketServer.js:142-147 | one room of the disconnect scan; DisconnectFromRoomwise states what it does |
| SocketServer.AfterDisconnect | src/server/socketServer.js:137-149 | the disconnect state; DisconnectRoomwise and DisconnectKeepsInvariant state what it does |
| SocketServer.DisconnectKeepsInvariant | src/server/socketServer.js:137-149 | disconnect keeps the hub invariant |
| SocketServer.DisconnectFromRoomwise | src/server/socketServer.js:141-148 | scanning a list of distinct room ids leaves each listed room as the one-room step would, and every other room as it was |
| SocketServer.DisconnectRoomwise | src/server/socketServer.js:137-149 | each room holding a user on the socket ends as if the first such user had left; other rooms are untouched |
| SocketServer.Server.constructor | src/server/socketServer.js:20 | the hub starts with no rooms and an empty outbox |
| SocketServer.Server.JoinRoom | src/server/socketServer.js:27-68 | the new state is the join specification of the old one, and the invariant holds |
| SocketServer.Server.VideoPlayPause | src/server/socketServer.js:71-87 | the new state is the play/pause specification of the old one |
| SocketServer.Server.VideoSeek | src/server/socketServer.js:90-106 | the new state is the seek specification of the old one |
| SocketServer.Server.VideoProgress | src/server/socketServer.js:109-129 | the new state is the progress specification of the old one, with the compared and the stored clock readings as two inputs |
| SocketServer.Server.LeaveRoom | src/server/socketServer.js:132-134 | the new state is handleUserDisconnect's specification |
| SocketServer.Server.HandleUserDisconnect | src/server/socketServer.js:152-183 | deletes the user, migrates the host and emits as the leave specification says |
| SocketServer.Server.DisconnectRoom | src/server/socketServer.js:142-147 | the inner loop hands the first user on the socket to handleUserDisconnect, then stops |
| SocketServer.Server.Disconnect | src/server/socketServer.js:137-149 | the outer loop over the rooms gives the disconnect specification of the old state |
| Presence.IndexOfId | src/app/api/socket/route.ts:53 | the first index holding the id, or none iff the id is absent |
| Presence.IndexOfSocket | src/app/api/socket/route.ts:164 | the first index holding the socket id, or none iff no user has it |
| Presence.Upsert | src/app/api/socket/route.ts:63-67 | a present id is replaced in place and nothing else moves; a new id is appended; distinct ids stay distinct |
| Presence.WithoutId | src/app/api/socket/route.ts:106 | exactly the entries with another id remain, and the id is gone |
| Presence.WithoutPresentId | src/server/socketServer.js:158 | on distinct ids, deleting the id found at k removes exactly entry k and keeps the order |
| Presence.RemoveAt | src/app/api/socket/route.ts:168 | entry k is removed, the others keep their order, distinct ids stay distinct |
| Presence.PromoteFirst | src/app/api/socket/route.ts:176 | only the first user changes, and it becomes flagged host |
| SocketRoute.AfterJoin | src/app/api/socket/route.ts:40-72 | the join-room state; JoinStoresUser and JoinAllowsTwoHosts state what it does |
| SocketRoute.JoinStoresUser | src/app/api/socket/route.ts:40-72 | the room becomes its old array with the user upserted (kept at its index on a rejoin, appended otherwise), other rooms stay, a new room goes to the end of the order; exactly one entry for the user, with the new socket id and the isHost flag as sent; the array is the only emission |
| SocketRoute.JoinKeepsInvariant | src/app/api/socket/route.ts:40-72 | join keeps the hub invariant |
| SocketRoute.JoinAllowsTwoHosts | src/app/api/socket/route.ts:55-67 | two users who both ask to be host are both flagged in the same room |
| SocketRoute.AfterLeave | src/app/api/socket/route.ts:97-128 | the leave-room state; LeaveKeepsAHost states what it does |
| SocketRoute.LeaveKeepsAHost | src/app/api/socket/route.ts:97-128 | an untracked room is a no-op; the leaver's entry is removed, the others in order; an emptied room is deleted with nothing sent; a surviving room is the rest as it was when someone left is flagged, else the rest with its first user flagged, who alone gets host-update; then the room gets the new array; other rooms and the order stay |
| SocketRoute.LeaveKeepsInvariant | src/app/api/socket/route.ts:97-128 | leave keeps the hub invariant |
| SocketRoute.AfterVideoAction | src/app/api/socket/route.ts:131-139 | the video-action state; VideoActionIsUnchecked states what it does |
| SocketRoute.VideoActionIsUnchecked | src/app/api/socket/route.ts:131-139 | any sender's action is relayed unchanged to the room except the sender; nothing else changes |
| SocketRoute.ChatIdInjective | src/app/api/socket/route.ts:147 | equal chat ids mean equal clock readings and equal user ids |
| SocketRoute.AfterChat | src/app/api/socket/route.ts:142-156 | the chat-message state from two clock readings; ChatIsRelayed states what it does |
| SocketRoute.ChatIsRelayed | src/app/api/socket/route.ts:142-156 | one message to the whole room with the sender, text and timestamp as given and the id `${now}-${userId}` from the first reading (unique per reading and user by ChatIdInjective); rooms and order untouched |
| SocketRoute.DisconnectInRoom | src/app/api/socket/route.ts:164-187 | one forEach step; DisconnectInRoomPromotesIffWasHost states what it does |
| SocketRoute.AfterDisconnect | src/app/api/socket/route.ts:159-189 | the disconnect state; DisconnectRoomwise and DisconnectFromKeepsInvariant state what it does |
| SocketRoute.DisconnectInRoomPromotesIffWasHost | src/app/api/socket/route.ts:163-188 | exactly the first user on the socket is removed, the others in order; an emptied room is deleted with nothing sent; if the removed user was flagged the rest gets its first user flagged, who alone gets host-update, otherwise the rest is left as it was; then the room gets the new array; other rooms and the order stay |
| SocketRoute.DisconnectCanLeaveNoHost | src/app/api/socket/route.ts:170-186 | a room with nobody flagged survives a disconnect with nobody flagged |
| SocketRoute.DisconnectInRoomKeepsInvariant | src/app/api/socket/route.ts:163-188 | one forEach step keeps the hub invariant |
| SocketRoute.DisconnectFromKeepsInvariant | src/app/api/socket/route.ts:163-188 | the forEach over any list of room ids keeps the hub invariant |
| SocketRoute.DisconnectFromRoomwise | src/app/api/socket/route.ts:163-188 | scanning a list of distinct room ids leaves each listed room as the one-room step would, and every other room as it was |
| SocketRoute.DisconnectRoomwise | src/app/api/socket/route.ts:159-189 | each room ends as the one-room step leaves it, whatever happened to the rooms before it |
| SocketRoute.Route.constructor | src/app/api/socket/route.ts:15 | the hub starts with no rooms and an empty outbox |
| SocketRoute.Route.JoinRoom | src/app/api/socket/route.ts:40-72 | the new state is the join specification of the old one |
| SocketRoute.Route.LeaveRoom | src/app/api/socket/route.ts:97-128 | the new state is the leave specification of the old one |
| SocketRoute.Route.RelayVideoAction | src/app/api/socket/route.ts:131-139 | the new state is the relay specification of the old one |
| SocketRoute.Route.SendChatMessage | src/app/api/socket/route.ts:142-156 | the new state is the chat specification of the old one |
| SocketRoute.Route.DisconnectRoom | src/app/api/socket/route.ts:164-187 | the forEach callback gives the one-room disconnect step |
| SocketRoute.Route.Disconnect | src/app/api/socket/route.ts:159-189 | the loop over the rooms gives the disconnect specification of the old state |
| Db.Filter | src/lib/vercel/db.ts:257 | every occurrence of x is dropped and every other element kept as often as it occurred (its order is FilterIsSubsequence) |
| Db.Take | src/lib/vercel/db.ts:257 | the first n elements, or all of them when there are fewer |
| Db.FilterIsSubsequence | src/lib/vercel/db.ts:257 | filtering keeps the remaining elements in their order |
| Db.UpdateRecent | src/lib/vercel/db.ts:257 | the recent-list update; RecentListShape and RecentListIdempotent state what it does |
| Db.UpdateHosted | src/lib/vercel/db.ts:260-262 | the hosted-list update; HostedListShape states what it does |
| Db.RecentListShape | src/lib/vercel/db.ts:257 | the visited room comes first and once; then the old list without it, in order, cut only at the cap of 10; every other room was already there |
| Db.RecentListIdempotent | src/lib/vercel/db.ts:257 | visiting the same room twice in a row equals visiting it once |
| Db.HostedListShape | src/lib/vercel/db.ts:260-262 | as host the room moves to the front once, followed by exactly the old list with the room filtered out (same order, repeats kept, so one longer than that); otherwise the list is untouched |
| Db.UpdateUserStats | src/lib/vercel/db.ts:232-268 | a failed lookup writes nothing; a first visit inserts the room as the only recent room, and as the only hosted room iff host; an existing row whose columns parse is updated with exactly the recent-list and hosted-list updates, and one with a column that does not parse writes nothing |
| Db.UpdateUserStatsResult | src/lib/vercel/db.ts:232-275 | true iff the lookup worked, the stored lists parsed (or there was no row) and the INSERT or UPDATE succeeded; false otherwise |
| Db.GetUserStats | src/lib/vercel/db.ts:277-304 | no row, a failed query, or a column that does not parse gives two empty lists; otherwise the stored lists |
| Db.FirstVisitReadsBack | src/lib/vercel/db.ts:232-304 | the stats written on a first visit read back as written; a second visit to the same room keeps the recent list |
| Db.GetRoom | src/lib/vercel/db.ts:105-135 | no row or an error gives null; otherwise the row's fields, with a null video url or title as the empty string |
| Db.BuildRoomUpdate | src/lib/vercel/db.ts:141-169 | URL before title, last_active always set, the room id last, and every placeholder n bound by value n-1 |
| Db.UpdateSql | src/lib/vercel/db.ts:166-169 | the statement text; UpdateSqlBothFields shows its layout |
| Db.UpdateSqlBothFields | src/lib/vercel/db.ts:145-169 | with both video fields the statement sets video_url = $1, video_title = $2 and last_active, comma-separated, WHERE id = $3 |
| Auth.OrNull | src/hooks/useAuth.tsx:32-39 | a present, non-empty value is kept; anything else becomes null |
| Auth.ConvertUser | src/hooks/useAuth.tsx:32-39 | the uid is the Supabase id; email, name and avatar are copied when present and non-empty |
| Auth.HandleAuthError | src/hooks/useAuth.tsx:42-67 | the error handler; HandleAuthErrorIsFirstMatch and HandleAuthErrorFixedCases state what it does |
| Auth.FirstMatch | src/hooks/useAuth.tsx:50-61 | the text of the first rule whose pattern occurs, or none iff no rule matches |
| Auth.HandleAuthErrorIsFirstMatch | src/hooks/useAuth.tsx:42-67 | for a message, the first matching rule decides the text, and an unmatched message is returned unchanged |
| Auth.HandleAuthErrorFixedCases | src/hooks/useAuth.tsx:42-67 | a falsy value gives the unknown-error text, an object without a message the unexpected-error text, and a truthy primitive throws a TypeError at the `in` test |
| Auth.FirstRuleWins | src/hooks/useAuth.tsx:50-61 | a message matching several rules gets the earliest rule's text |
| Auth.MessageResultIsKnown | src/hooks/useAuth.tsx:50-63 | every text returned for a message is a rule's text or the message itself |
| EmailPattern.StrictCheck | src/components/SignupForm.tsx:56 | the executable anchored check; StrictCheckIsPattern proves it equal to the pattern |
| EmailPattern.LooseCheck | src/app/auth/forgot-password/page.tsx:38 | the executable unanchored check; LooseCheckIsPattern proves it equal to the pattern |
| EmailPattern.StrictCheckIsPattern | src/components/SignupForm.tsx:56 | the scan accepts exactly the strings the anchored address pattern matches |
| EmailPattern.LooseCheckIsPattern | src/app/auth/forgot-password/page.tsx:38 | the scan accepts exactly the strings with a substring the unanchored pattern matches |
| EmailPattern.StrictImpliesLoose | src/app/auth/forgot-password/page.tsx:38 | every string the anchored pattern matches, the unanchored one matches too |
| EmailPattern.PatternsDiffer | src/app/auth/forgot-password/page.tsx:38 | padding with spaces or a second '@' passes the unanchored check and fails the anchored one |
| SignupForm.ValidateForm | src/components/SignupForm.tsx:42-81 | valid iff no field has a message |
| SignupForm.ValidIffRequirementsMet | src/components/SignupForm.tsx:42-81 | accepted iff there is a name, the address matches, the password has six characters and the confirmation repeats it |
| SignupForm.FieldMessages | src/components/SignupForm.tsx:42-81 | an empty field gets its required message whatever else is wrong; a six-character password passes |
| SignupForm.HandleSubmit | src/components/SignupForm.tsx:83-92 | registration runs iff validation succeeds |
| LoginForm.ValidateForm | src/components/LoginForm.tsx:36-60 | valid iff neither field has a message |
| LoginForm.ValidIffRequirementsMet | src/components/LoginForm.tsx:36-60 | accepted iff the address matches and the password has six characters |
| LoginForm.SameRulesAsSignup | src/components/LoginForm.tsx:36-60 | both fields get exactly the sign-up form's messages |
| LoginForm.HandleSubmit | src/components/LoginForm.tsx:62-71 | login runs iff validation succeeds |
| UpdatePasswordPage.NextLinkValidity | src/app/auth/update-password/page.tsx:39-52 | the link-validity effect; LinkCheck states what it does |
| UpdatePasswordPage.LinkCheck | src/app/auth/update-password/page.tsx:39-52 | the link becomes invalid iff there is no user, loading is over and the hash has no recovery marker; otherwise the flag stays |
| UpdatePasswordPage.ValidateForm | src/app/auth/update-password/page.tsx:54-80 | valid iff both error strings are empty |
| UpdatePasswordPage.ValidIffRequirementsMet | src/app/auth/update-password/page.tsx:54-80 | accepted iff the password has six characters and the confirmation repeats it |
| UpdatePasswordPage.BothChecksRun | src/app/auth/update-password/page.tsx:54-80 | an empty password with a non-empty confirmation reports both problems |
| UpdatePasswordPage.HandleSubmit | src/app/auth/update-password/page.tsx:82-91 | the update runs iff validation succeeds |
| ForgotPasswordPage.ValidateEmail | src/app/auth/forgot-password/page.tsx:32-45 | an empty address gets the required message, and the address is valid iff the error is empty |
| ForgotPasswordPage.ValidIffPatternMatches | src/app/auth/forgot-password/page.tsx:32-45 | accepted iff some part of the address matches the unanchored pattern |
| ForgotPasswordPage.LooserThanSignup | src/app/auth/forgot-password/page.tsx:38 | every address sign-up accepts is accepted here, but not conversely |
| ForgotPasswordPage.HandleSubmit | src/app/auth/forgot-password/page.tsx:47-56 | the reset request runs iff validation succeeds |
| Middleware.IsExempt | src/middleware.ts:6-15 | the exempt-path test; ExemptionBoundaries shows where its boundaries fall |
| Middleware.Decide | src/middleware.ts:6-83 | the middleware's decision; DecisionIsSessionGate states what it does |
| Middleware.DecisionIsSessionGate | src/middleware.ts:6-83 | exempt paths pass untouched; the rest continue iff a session is found, and are sent to /auth/login otherwise or when the check throws |
| Middleware.ExemptionBoundaries | src/middleware.ts:6-15 | '/' and '/about' are exempt only as exact paths, '/api' needs its slash, and any path with a dot is exempt |
| AuthCallback.GetCookie | src/app/auth/callback/client.tsx:16-21 | a value is non-empty, holds no ';' and needs the marker; no marker gives null (LoneMarkerIsRead gives the value for a lone marker) |
| AuthCallback.ValueStopsAtSemicolon | src/app/auth/callback/client.tsx:16-21 | the value is all of what follows the marker's only occurrence, or its start up to a ';' |
| AuthCallback.LoneMarkerIsRead | src/app/auth/callback/client.tsx:16-21 | when `; name=` occurs exactly once, the value is the text after it up to the first ';', and null only when that is empty |
| AuthCallback.DuplicateNameReadsNull | src/app/auth/callback/client.tsx:18-20 | a cookie set twice under the same name reads as absent |
| AuthCallback.NeedsBoundary | src/app/auth/callback/client.tsx:17-18 | a cookie named with a longer name ending in this one is not read |
| AuthCallback.RedirectTarget | src/app/auth/callback/client.tsx:83-94 | the stored path when there is one, else /profile |
| AuthCallback.TargetNeverEmpty | src/app/auth/callback/client.tsx:83-94 | the redirect target is never empty |
| SupabaseClient.ClientCache.constructor | src/utils/supabase/client.ts:4 | the cache starts empty, with no client built |
| SupabaseClient.ClientCache.CreateClient | src/utils/supabase/client.ts:6-52 | a client is built at most once; later calls return the cached one |
| SupabaseClient.FindRow | src/utils/supabase/client.ts:14-19 | the first row with the prefix, or none iff no row has it |
| SupabaseClient.CookieGet | src/utils/supabase/client.ts:14-19 | none iff no row starts with the name and '='; a value never contains '=' |
| SupabaseClient.GetStopsAtNextEquals | src/utils/supabase/client.ts:14-19 | for a name without '=', the value is the text between the row's first and second '=' |
| SupabaseClient.SetThenGet | src/utils/supabase/client.ts:14-32 | the pair set writes reads back its value when name and value hold no '=' and the pair no "; " |
| SupabaseClient.GetTruncatesValueWithEquals | src/utils/supabase/client.ts:17 | a value stem=tail is read back as stem alone |
| SupabaseClient.CookieGetWhole | src/utils/supabase/client.ts:14-19 | finds the same row as get and returns everything after name=, which is that row's whole value |
| SupabaseClient.SetThenGetWhole | src/utils/supabase/client.ts:14-32 | the corrected get reads back every value set wrote, '=' included |
| SupabaseClient.SetParts | src/utils/supabase/client.ts:20-32 | the filtered attribute list of set; SetLayout states its layout |
| SupabaseClient.SetLayout | src/utils/supabase/client.ts:20-32 | the pair, the path, max-age only when given and non-zero, then domain, SameSite, Secure and HttpOnly when present |
| SupabaseClient.CookieSet | src/utils/supabase/client.ts:20-32 | the cookie text starts with the pair and the path attribute |
| SupabaseClient.ZeroMaxAgeIsOmitted | src/utils/supabase/client.ts:24 | a max-age of 0 writes no max-age attribute |
| SupabaseClient.ProductionIsSecure | src/utils/supabase/client.ts:20-46 | in production both set and remove write the Secure attribute |
| SupabaseClient.SetDefaults | src/utils/supabase/client.ts:20-32 | with no options the cookie is `name=value; path=/; SameSite=Lax` |
| SupabaseClient.RemoveParts | src/utils/supabase/client.ts:33-46 | the filtered attribute list of remove; RemoveLayout states its layout |
| SupabaseClient.RemoveLayout | src/utils/supabase/client.ts:33-46 | an empty value, the path, max-age=0, the 1970 expiry, then the optional attributes |
| SupabaseClient.CookieRemove | src/utils/supabase/client.ts:33-46 | the cookie text starts with the empty pair, the path and max-age=0 |
| Catalog.CatalogIds | src/lib/catalog.ts:15-104 | eight entries with ids "1" to "8", all distinct |
| Catalog.GetMovieById | src/lib/catalog.ts:107-109 | a result is a catalogue entry with that id; none iff no entry has it |
| Catalog.GetMovieByOwnId | src/lib/catalog.ts:107-109 | every entry is found by its own id |
| Catalog.GetAllMovies | src/lib/catalog.ts:112-114 | eight entries with distinct ids "1" to "8", each found by its id |
| Movies.FindById | src/lib/catalog.ts:107-109 | find by id; FindOwnId and Catalog.GetMovieById state what it does |
| Movies.FindOwnId | src/lib/catalog.ts:107-109 | in a list with distinct ids, finding an entry's id gives that entry |
| Movies.FilterByGenre | src/lib/catalog.ts:117-119 | filter by genre; FilterByGenreMembers and FilterByGenreAppend state what it keeps |
| Movies.FilterByGenreMembers | src/lib/catalog.ts:117-119 | the filter keeps exactly the entries of the genre |
| Movies.FilterByGenreAppend | src/lib/catalog.ts:117-119 | the filter of a concatenation is the concatenation of the filters |
| Catalog.GetMoviesByGenre | src/lib/catalog.ts:117-119 | exactly the catalogue entries of that genre |
| Catalog.CrimeFilms | src/lib/catalog.ts:15-119 | the crime films are entries 3, 5 and 7, in catalogue order |
| MovieCatalog.JsRem | src/components/MovieCatalog.tsx:48 | the dividend is the truncated quotient times the divisor plus the remainder, which takes the dividend's sign and is smaller than the divisor |
| MovieCatalog.FormatDuration | src/components/MovieCatalog.tsx:46-50 | the duration label; FormatDurationSplits, FormatDurationInjective and NegativeDurationLabel state what it gives |
| MovieCatalog.FormatDurationSplits | src/components/MovieCatalog.tsx:46-50 | a non-negative duration reads as whole hours and fewer than 60 minutes that add back up to it |
| MovieCatalog.FormatDurationInjective | src/components/MovieCatalog.tsx:46-50 | different non-negative durations get different labels |
| MovieCatalog.NegativeDurationLabel | src/components/MovieCatalog.tsx:46-50 | -30 reads "-1h -30min" and 138 reads "2h 18min" |
| MovieCatalogView.FilteredMovies | src/components/MovieCatalog.tsx:39-43 | exactly the catalogue entries whose lower-cased title, description or genre contains the lower-cased term |
| MovieCatalogView.EmptySearchShowsCatalog | src/components/MovieCatalog.tsx:39-43 | with an empty search the panel lists the whole catalogue in order |
| MovieCatalog.MatchesSearch | src/components/MovieCatalog.tsx:39-43 | the search test on one film; SearchIgnoresTermCase states its case folding |
| MovieCatalog.FilterBySearch | src/components/MovieCatalog.tsx:39-43 | the search filter; FilterBySearchMembers and FilterBySearchAppend state what it keeps |
| MovieCatalog.FilterBySearchMembers | src/components/MovieCatalog.tsx:39-43 | the search keeps exactly the matching entries |
| MovieCatalog.FilterBySearchAppend | src/components/MovieCatalog.tsx:39-43 | the search distributes over concatenation, so it keeps catalogue order |
| MovieCatalog.EmptySearchKeepsAll | src/components/MovieCatalog.tsx:39-43 | an empty term keeps every entry |
| MovieCatalog.SearchIgnoresTermCase | src/components/MovieCatalog.tsx:39-43 | terms equal up to ASCII case give the same result |
| RecentRooms.FindRoom | src/app/api/rooms/recent/route.ts:46-48 | a row with the id, or none iff no row has it |
| RecentRooms.SortRooms | src/app/api/rooms/recent/route.ts:46-48 | at most one row per visit, each a fetched row for a visited id |
| RecentRooms.SortRoomsFollowsVisits | src/app/api/rooms/recent/route.ts:46-48 | the output's ids are exactly the visited ids with a row, in visit order, repeats included |
| RecentRooms.SortRoomsAppend | src/app/api/rooms/recent/route.ts:46-48 | sorting distributes over the visit list |
| RecentRooms.AllKnownKeepsLength | src/app/api/rooms/recent/route.ts:46-48 | when every visited id has a row nothing is dropped |
| RecentRooms.Get | src/app/api/rooms/recent/route.ts:7-53 | 400 without a user id; 200 always carries a room list; the status is 200, 400 or 500 |
| RecentRooms.GetOutcomes | src/app/api/rooms/recent/route.ts:7-53 | each query error gives its own 500 message, a thrown query or null room data the catch's 500 "Internal server error", no visits an empty list, and otherwise the sorted rows |
| Storage.Extension | src/lib/vercel/storage.ts:25 | the text after the last '.', which holds no '.' |
| Storage.BlobName | src/lib/vercel/storage.ts:25-26 | the id, a '.', then a dot-free rest that the filename ends with right after a '.' (the text after its last '.'), or the filename itself when it has no '.' |
| Storage.NoDotWholeName | src/lib/vercel/storage.ts:25 | a filename without '.' is its own extension |
| Storage.DotThenExtension | src/lib/vercel/storage.ts:25 | a filename with a '.' ends with a '.' and the extension |
| Storage.ExtensionOfDotted | src/lib/vercel/storage.ts:25 | for a stem, a '.' and a dot-free tail, the extension is exactly that tail |
| Storage.DotFreeTailUnique | src/lib/vercel/storage.ts:25 | the tail after the last '.' is unique: two splittings at a '.' with dot-free tails have the same tail |
| Storage.EmptyExtension | src/lib/vercel/storage.ts:25 | the extension is empty iff the filename is empty or ends in '.' |
| Storage.UploadFile | src/lib/vercel/storage.ts:22-44 | `put` is asked for a public blob named BlobName(id, filename) with the given type; uploaded iff the put stored the blob, and then the metadata holds the id, the stored URL, the original filename, the type and now; a failed put gives the upload error message |
| Storage.UploadNamesBlobByExtension | src/lib/vercel/storage.ts:22-37 | uploading `stem.ext` (ext without '.') stores the blob as `id.ext` and reports the filename `stem.ext` |
| Storage.Slug | src/lib/vercel/storage.ts:86 | no whitespace, no upper-case ASCII letter, and no longer than the name; SlugOfWords shows each whitespace run becoming one '-' |
| Storage.SlugOfWords | src/lib/vercel/storage.ts:86 | a word, a whitespace run and the rest slug to the lower-cased word, one '-', and the slug of the rest |
| Strings.RunBecomesOne | src/lib/vercel/storage.ts:86 | `replace(/\s+/g, with)` keeps a whitespace-free word and turns the whole following run into one `with` |
| Storage.SlugOfPlainName | src/lib/vercel/storage.ts:86 | a lower-case name without whitespace is its own slug |
| Storage.GetFileUrl | src/lib/vercel/storage.ts:90-96 | the base URL followed by the file path |
| Storage.SimulatedUploadUrl | src/lib/vercel/storage.ts:79-88 | the file URL of path/slug |

## Findings

| source | as written | input that shows it | evidently intended | confidence | as-written member | corrected member |
|---|---|---|---|---|---|---|
| src/utils/supabase/client.ts:17 | `get` returns `row.split('=')[1]`, so a value is cut at its first '=' | jar `sb=abc==`, name `sb` reads `abc` | everything after `name=`, so base64 padding survives | medium, not executed | SupabaseClient.GetTruncatesValueWithEquals | SupabaseClient.SetThenGetWhole |

## Left out

- Socket.IO transport: rooms joined on the socket, delivery and acknowledgements. Each emitted event is appended to an outbox with its target instead.
- The video-info lookup at the end of the route's join-room (src/app/api/socket/route.ts:74-93) is a database call whose result only goes back to the joining socket. It and src/lib/vercel/socket.ts are not part of this model.
- SQL, Supabase and Blob calls are not executed. Their outcomes (rows, error flags, thrown exceptions, blob URLs) are inputs to the functions.
- Db: initializeDatabase, createRoom, addMessage and getMessages only forward their arguments to SQL and return its rows; getClient returns the pool. They are not modelled.
- Storage: deleteFile and listFiles only forward to the blob store. They are not modelled.
- Middleware: the cookie adapter handed to the server client (src/middleware.ts:28-66) and the matcher config (86-90) are framework plumbing. They are not modelled.
- Clocks, `nanoid` and other random ids are parameters. The route's chat message and the standalone server's video-progress read the clock twice, so each takes two readings.
- Playback positions are `real` and are only copied, never computed with. JavaScript floating point is not modelled.
- `JSON.parse` of stored lists is abstracted to "parses as a list of ids or throws".
- Handler payloads are taken as well-typed. A non-string or missing field sent by a client is not modelled.
- String lengths count characters, not UTF-16 code units.
- Upper/lower case is folded for ASCII letters only. Non-ASCII letters such as 'Ç' are left as they are.
- SupabaseClient.CookieSet: the `sameSite` option is taken as already-rendered text, and `maxAge` as an integer. A boolean `sameSite` and a fractional `maxAge` are not modelled.
- User interface state, toasts, router navigation and the `setTimeout` delays are left out. Only the decisions behind them are modelled.
- Concurrency between asynchronous handlers is not modelled. Each handler runs to completion, one at a time.
- The JWT and password hashing helpers and the src/backup API handlers are not part of this model.
