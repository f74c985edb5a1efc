# piquel: grants, diffs, output streams, logins and private files

This project models five parts of piquel, a self-hosted deployment daemon with
a command line and a web interface, and proves what their comments and
documentation promise. `dafny verify dfyconfig.toml` checks all of it.

## What is modelled

**Grant sets** (`Scopes`, `Access`, `AccessLattice`, `AccessLists`, `GrantSets`,
`AccessChecks`, `GrantSelections`). A grant set holds `admin` on a scope, a
scope for each application permission, and installation-wide permissions. A
scope is every application, including later ones, or a list. `Place` makes that
difference visible by adding one point, `Later`, to the application IDs, and
`Grants.Allows(permission, place)` is everything a caller can observe of a set.
`normalize` turns out to compute a function of that access alone. It follows
that equal access has one representation, that `covers` decides inclusion of
access although it looks only at what is listed, and that grant sets are a
bounded distributive lattice. Class `GrantSet` has the methods that update the
three fields in place, loop by loop; each leaves the value of a function in
`Access` or `AccessLists`. Application permissions are visited in declaration
order only where the order shows.

**Accounts over time** (`AccessRuns`). Accounts, credentials and invitations are
a state machine whose steps carry the guards of the store: replacing grants,
inviting, redeeming, issuing tokens, signing in, revoking, creating and deleting
applications. Invitations and tokens record grants that their issuer or account
may have lost since; the results are about what accounts can do. Along every run
no account gains access to what existed at its start that no account had, not
through a redeemed link either, and no new kind of ability appears on new
applications. Applications and accounts appear only while an account holds the
permission for it, an account loses access only by its own decision or to a
manager holding the same, and a limited credential never exceeds its own grants
and hands nothing out. For each step a lemma says what it does, and that nothing
else changes.

**Line diff** (`LineDiff`). The table of common subsequence lengths is filled
backwards in a two-dimensional array and walked forwards; the diff is proved
optimal against every common subsequence and every other list of marked lines.

**Output streams** (`Utf8`, `Encoding`, `OutputStream`, `BuildLogs`, `Api`,
`Sorting`, `LogLines`, `BuildOutput`). Bytes are parsed into characters,
undecodable parts and truncated characters, by section 4 of RFC 3629 and the
replacement practice of section 3.9 of the Unicode Standard; `Encoding` proves
these byte ranges against the arithmetic of section 3 of the RFC. On top of that stand the flush point, the
read loop with its bounded tail, the chunks stored in the database, and their
reassembly into display lines. `BuildOutput` composes them: however two streams
are read, flushed, interleaved and cut into chunks, each is shown as if it had
been decoded and split into lines at once.

**Saved logins** (`LoginStore`, `LoginProtocol`). The three updates of the
credentials file, and any number of processes interleaving them: lock, read,
change, write a temporary, rename, unlock, with the first read and the remote
revocation of a logout outside the lock, and processes that stop anywhere.

**Private files** (`PrivateFile`). A disk with unsynced directory entries and
unsynced data. Every system call is a step, and a crash may undo what was not
synced, name by name. Runs are series of writes and removals, each stopped at any
of its states, and crashes.

**Smaller round trips** (`Deployments`, `Durations`).

## Where the code and its documentation differ

The code is modelled as it is. These are the differences the proofs found; each
lemma gives the exact condition under which the documentation is right.

- `complete_prefix` is documented to hold back a *trailing* incomplete
  character. It stops at the first truncated one, wherever it is. What it holds
  back is a trailing character exactly when no truncated character is followed
  by more bytes (`HeldBackIsTrailing`). Otherwise nothing after it is ever
  flushed before the end (`InnerCutHoldsEverything`, `HoldingIsTemporary`), so
  the pending buffer grows with the output and the fixed memory bound documented
  for the read loop does not hold. Output in a single-byte encoding
  does this: the bytes `E9 20`, an accented letter and a space in Latin-1, hold
  back everything after them (`SingleByteEncodingIsHeldBack`).
- `append_build_log` promises chunks of at most 4096 bytes. When a truncated
  character and what follows it exceed one chunk, the chunk it cuts is empty;
  inserting a second empty chunk repeats the primary key, and the append fails.
  That happens exactly then (`ChunkingIsStuck`, `StoredLog.Append`). Pieces
  flushed while reading always fit; the final one might not
  (`WhichPiecesCanBeStored`).
- `PrivateFile::remove` is documented to be durable. It syncs the directory only
  if it removed something, so a removal repeated after an interrupted one
  succeeds although a crash may still bring the file back
  (`InterruptedRemovalMayComeBack`). `RemovalIsDurableIff` has the condition.
- `PrivateFile::write` replaces a file atomically unless the file's own name is
  one of its temporary names, such as one ending in `.tmp`: then it deletes the
  file first (`Write`, `OwnLegacyName`).
- The grant editor's one-scope selection covers the set it was read from unless
  that set mixes every application with lists
  (`EditingCoversUnlessAllIsMixedWithLists`).

## Model

| member | source | states |
|---|---|---|
| `Scopes.ScopeIsItsPlaces` | crates/piqueld-core/src/access.rs:229-256 | two scopes are equal exactly when they hold the same places, later applications being one place |
| `Scopes.CoversIsInclusion` | crates/piqueld-core/src/access.rs:263-271 | a scope covers another exactly when it holds each of its places, so no list covers every application |
| `Scopes.WithoutRestores` | crates/piqueld-core/src/access.rs:291-304 | subtracting loses nothing the subtrahend does not give back, and what stays inside it is only what `All` absorbs |
| `AccessLattice.SameAccessIsPointwise` | crates/piqueld-core/src/access.rs:552-576 | comparing admin scope, every app scope and every global permission is comparing what is allowed at every place |
| `AccessLattice.AppScopeParts` | crates/piqueld-core/src/access.rs:79-107 | an effective scope spelled out by what implies the permission: admin, the permission, the one including it, and any at all for reading |
| `AccessLattice.NormalizingKeepsAccess` | crates/piqueld-core/src/access.rs:500-526 | restoring the canonical form changes no admin scope, app scope or global permission |
| `AccessLattice.NormalizedIsCanonical` | crates/piqueld-core/src/access.rs:415-427 | the result meets the documented canonical form: nothing empty, nothing already covered listed again, reading listed for all that is readable |
| `AccessLattice.NormalFormFollowsAccess` | crates/piqueld-core/src/access.rs:500-526 | sets with equal access normalize to the same set |
| `AccessLattice.CanonicalIffNormalized` | crates/piqueld-core/src/access.rs:500-526 | the documented form describes exactly the fixpoints of `normalize` |
| `AccessLattice.NormalizingIsIdempotent` | crates/piqueld-core/src/access.rs:500-526 | normalizing twice is normalizing once |
| `AccessLattice.CanonicalFormIsUnique` | crates/piqueld-core/src/access.rs:415-427 | canonical sets are equal exactly when they give the same access |
| `AccessLattice.CoversIsPointwise` | crates/piqueld-core/src/access.rs:695-712 | `covers`, which looks only at listed grants, holds exactly when everything the other set allows anywhere is allowed |
| `AccessLattice.CoversIsPartialOrder` | crates/piqueld-core/src/access.rs:695-712 | covering is reflexive, transitive and, on canonical sets, antisymmetric |
| `AccessLattice.IntersectionIsMeet` | crates/piqueld-core/src/access.rs:714-737 | the intersection allows at each place exactly what both sets allow, in canonical form |
| `AccessLattice.ExtendedIsJoin` | crates/piqueld-core/src/access.rs:528-538 | extending allows at each place exactly what one of both sets allows, in canonical form |
| `AccessLattice.GrantsFormLattice` | crates/piqueld-core/src/access.rs:441-449 | `admin()` is top and the default bottom; intersection is the greatest lower and extension the least upper bound for `covers` |
| `AccessLattice.IntersectionDistributes` | crates/piqueld-core/src/access.rs:714-737 | limiting a union equals, as a value, the union of its limited parts |
| `AccessLists.InsertingGives` | crates/piqueld-core/src/access.rs:470-498 | inserting a grant adds exactly what the permission gives on the scope |
| `AccessLists.PermissionsInclude` | crates/piqueld-core/src/access.rs:79-107 | the inclusion table spelled out: reading comes with every application permission, deploying and deleting with the same for previews, `admin` with everything |
| `AccessLists.FirstRefusalDecides` | crates/piqueld-core/src/access.rs:787-804 | a list is read exactly when no grant is refused, and otherwise fails with the first refusal |
| `AccessLists.WhichGrantsAreAccepted` | crates/piqueld-core/src/access.rs:472-481 | a grant is accepted exactly when it names no empty list, and no list for an installation-wide permission; the empty list is reported first |
| `AccessLists.ListMeansUnion` | crates/piqueld-core/src/access.rs:787-804 | an accepted list allows exactly what one of its grants gives, in canonical form |
| `AccessLists.EquivalentListsAgree` | crates/piqueld-core/src/access.rs:787-804 | accepted lists read as the same set exactly when their grants give the same access |
| `AccessLists.OrderAndDuplicatesDoNotMatter` | crates/piqueld-core/src/access.rs:787-804 | lists with the same grants are accepted together and read as the same set |
| `AccessLists.RedundantGrantAddsNothing` | crates/piqueld-core/src/access.rs:787-804 | a grant the list already implies changes nothing |
| `AccessLists.NormalizingOnceSuffices` | crates/piqueld-core/src/access.rs:470-471 | reading a list and normalizing once equals normalizing after every grant, refusals included |
| `AccessLists.ToListHolds` | crates/piqueld-core/src/access.rs:763-784 | the list holds one grant for admin, each application permission and each global permission held, and nothing else |
| `AccessLists.ToListIsOrdered` | crates/piqueld-core/src/access.rs:763-765 | the list names each permission once: `admin`, then application, then installation-wide permissions, as declared |
| `AccessLists.ListRoundTrip` | crates/piqueld-core/src/access.rs:763-804 | writing a canonical set as a list and reading it is the identity |
| `AccessLists.BuiltSetsAreCanonical` | crates/piqueld-core/src/access.rs:451-538 | every sequence of grants, extensions, intersections, creator grants and lists builds a canonical set |
| `AccessLists.EqualAccessComparesEqual` | crates/piqueld-core/src/access.rs:415-430 | two sets built in any ways are equal exactly when they give the same access |
| `GrantSets.GrantSet.InsertWithin` | crates/piqueld-core/src/access.rs:483-498 | in place: the field named by the permission gains the scope, nothing else changes, and empty scopes add no entry |
| `GrantSets.GrantSet.Insert` | crates/piqueld-core/src/access.rs:470-481 | an empty scope adds nothing even for a global permission; a list for a global permission is refused |
| `GrantSets.GrantSet.Normalize` | crates/piqueld-core/src/access.rs:500-526 | the in-place passes over the map leave the canonical form |
| `GrantSets.GrantSet.TrimAll` | crates/piqueld-core/src/access.rs:508-513 | the first loop leaves what admin does not cover and returns the union of it |
| `GrantSets.GrantSet.SubtractIncluding` | crates/piqueld-core/src/access.rs:514-521 | the second loop, reading entries it also changes, leaves every entry's canonical scope |
| `GrantSets.GrantSet.Grant` | crates/piqueld-core/src/access.rs:451-460 | a scoped global permission is refused, changing nothing; anything else is inserted and normalized |
| `GrantSets.GrantSet.GrantWithin` | crates/piqueld-core/src/access.rs:462-468 | never refuses: inserts and normalizes |
| `GrantSets.GrantSet.Extend` | crates/piqueld-core/src/access.rs:528-538 | the loop over the other set leaves the join |
| `GrantSets.GrantSet.TryFrom` | crates/piqueld-core/src/access.rs:787-804 | the loop returns what the list means, or its first refusal |
| `GrantSets.RefusalIsFinal` | crates/piqueld-core/src/access.rs:791-800 | the early return loses nothing: once a prefix is refused, so is the list, for the same reason |
| `GrantSets.GrantSet.AppScope` | crates/piqueld-core/src/access.rs:558-570 | the loop over held permissions finds the effective scope in any order |
| `GrantSets.GrantSet.ForCreatedApplication` | crates/piqueld-core/src/access.rs:739-761 | the loop builds the creator's grants in a new set |
| `AccessChecks.RequireChangeMonotone` | crates/piqueld-core/src/access.rs:638-693 | for every target, what a set is allowed every covering set is allowed |
| `AccessChecks.AccountChecksMonotone` | crates/piqueld-core/src/access.rs:612-636 | the same for changing an account and handing out grants |
| `AccessChecks.AccountAnswers` | apps/piqueld/src/store/auth/access.rs:274-295 | handing out, inviting, changing an account and replacing its grants, answer by answer: who passes and which refusal comes first, limited credentials included |
| `AccessChecks.RequireAnswers` | crates/piqueld-core/src/access.rs:593-610 | `require` passes exactly for a permission held somewhere, `admin` only on every application, and otherwise names it |
| `AccessChecks.UnreadableLooksUnknown` | crates/piqueld-core/src/access.rs:648-689 | for an application the caller cannot read, by ID, as a preview and unknown give the same answer; its name is never allowed and answers like a free one exactly when creating is refused |
| `AccessChecks.ChangeByIdNeedsEveryPermission` | crates/piqueld-core/src/access.rs:578-591 | a change by ID passes exactly with every permission there; a refusal names the first one missing, or hides the target from callers who cannot read it |
| `AccessChecks.ChangeByNameNeedsEveryPermission` | crates/piqueld-core/src/access.rs:685-691 | a change by name of an application the caller can read answers the same way |
| `AccessChecks.CreatingNeedsEveryKind` | crates/piqueld-core/src/access.rs:640-662 | creating passes exactly with `apps:create` for `apps:write` and every other permission somewhere, and names the first one missing |
| `AccessChecks.PreviewNeedsPermissionOrStandIn` | crates/piqueld-core/src/access.rs:666-675 | on a preview, reading logs also passes with `previews:deploy`, nothing else is relaxed, and a refusal names the first permission missing to callers who can read the target |
| `AccessChecks.UnknownNeedsEveryApplication` | crates/piqueld-core/src/access.rs:676-684 | an unknown target passes exactly for permissions held on every application, later ones included, and is hidden otherwise |
| `AccessRuns.AuthorityAllows` | apps/piqueld/src/store/auth/access.rs:243-272 | a credential allows exactly what its account allows and, if it is limited, its own grants allow too |
| `AccessRuns.CreatorHoldsWhatItHeldSomewhere` | crates/piqueld-core/src/access.rs:739-761 | with its creator grants an account holds on the new application exactly the abilities it held somewhere |
| `AccessRuns.ReceivedOnlyThere` | crates/piqueld-core/src/access.rs:739-743 | creator grants reach no other application, no later one and nothing installation-wide |
| `AccessRuns.ReceivesNothingIffHeldEverywhere` | crates/piqueld-core/src/access.rs:740-742 | a creator receives nothing exactly when everything it holds it holds on every application |
| `AccessRuns.ForgetAllows` | apps/piqueld/migrations/0015_authorization.sql:1-14 | deleting an application's grant rows leaves access everywhere else as it was |
| `AccessRuns.StepKeepsValid` | apps/piqueld/src/store/auth/access.rs:308-372 | after every step stored grants are canonical and name existing applications only |
| `AccessRuns.StepAccessHasSource` | apps/piqueld/src/store/auth/access.rs:436-490 | what a holder has after a step it had before, or some account had, or it is on the application the step creates and some account had it somewhere; an unredeemed invitation or an unbacked token is no source for anyone else |
| `AccessRuns.HandedOutIsHeld` | apps/piqueld/src/store/auth/mod.rs:572-591 | whatever is handed out by a credential, or by a link at its redemption, an account holds at that moment |
| `AccessRuns.FreshApplicationReach` | apps/piqueld/src/store/acceptance.rs:126-140 | right after its creation, exactly the unlimited creator reaches an application with what it held somewhere, and others with what they hold on every application |
| `AccessRuns.HoldersNeverGrow` | docs/dev/architecture/authorization.md:167-172 | along every run, what any account, credential or invitation holds on what existed or was to come at first, it held itself at first or some account did |
| `AccessRuns.AccessNeverGrows` | docs/dev/architecture/authorization.md:132-172 | along every run no account, and no credential through its effective authority, can do anything there that no account could do at first |
| `AccessRuns.LimitsNeverGrow` | docs/dev/architecture/authorization.md:132-142 | along every run a limited credential that is not revoked stays limited and never may do what its grants at the start did not allow |
| `AccessRuns.NoNewKindOfAbility` | docs/dev/architecture/authorization.md:155-165 | along every run no account gets an ability that no account had, even on applications created on the way |
| `AccessRuns.CreatingNeedsPermission` | docs/dev/architecture/authorization.md:157-157 | along every run in which no account holds `apps:create` at first, no application appears |
| `AccessRuns.CreatorReceivesWhatCreatingRequired` | crates/piqueld-core/src/access.rs:640-643 | every permission that creating required on some application, an unlimited creator holds on the new one |
| `AccessRuns.InvitingNeedsPermission` | apps/piqueld/src/store/auth/mod.rs:996-1022 | along every run in which no account holds `accounts:manage` at first, no account and no invitation appears |
| `AccessRuns.LosingNeedsAuthority` | crates/piqueld-core/src/access.rs:612-624 | an account loses something only with the application it is on, by its own unlimited credential, or to an unlimited credential of an account manager who holds it too |
| `AccessRuns.LimitedCredentialsHandOutNothing` | apps/piqueld/src/store/auth/access.rs:274-295 | along every run with limited credentials only, and without sign-ins and redemptions, no holder gains anything and no holder or credential appears |
| `AccessRuns.WhoMayAct` | docs/dev/architecture/authorization.md:132-172 | setting grants, inviting, redeeming, issuing tokens and creating applications are open to exactly those the documentation lists |
| `AccessRuns.GrantsAreReplaced` | apps/piqueld/src/store/auth/access.rs:334-372 | after setting grants the account holds exactly the new ones, and nothing else differs |
| `AccessRuns.InvitationIsRecorded` | apps/piqueld/src/store/auth/mod.rs:996-1014 | an invitation records exactly its grants and its issuer, and nothing else differs |
| `AccessRuns.LinkIsRedeemed` | apps/piqueld/src/store/auth/mod.rs:579-596 | redeeming makes an account holding exactly what the link recorded and uses the link up, and nothing else differs |
| `AccessRuns.TokenIsIssued` | apps/piqueld/src/store/auth/mod.rs:1095-1120 | a token may do exactly what its creator's account and its own grants both allow, and nothing else differs |
| `AccessRuns.SignInActsForAccount` | apps/piqueld/src/store/auth/access.rs:243-272 | a sign-in may do exactly what its account may, and nothing else differs |
| `AccessRuns.RevocationEndsIt` | apps/piqueld/migrations/0015_authorization.sql:3-5 | a revoked credential or invitation is gone with its grants, and nothing else differs |
| `AccessRuns.CreationChangesOnlyThere` | apps/piqueld/src/store/acceptance.rs:126-140 | creating an application changes nobody's access elsewhere or to the installation |
| `AccessRuns.DeletionForgetsOnlyIt` | apps/piqueld/migrations/0015_authorization.sql:3-5 | after deleting an application what anyone holds on it is what they hold on every application, and nothing else differs |
| `GrantSelections.GrantsOf` | apps/piqueld-ui/src/auth.rs:185-199 | the loop granting one permission at a time gives the same set as granting all and normalizing once |
| `GrantSelections.SelectionShows` | apps/piqueld-ui/src/auth.rs:150-182 | the editor shows exactly the permissions held, the whole installation exactly when no grant names a list, and every listed application |
| `GrantSelections.MixedMeansDifferentScopes` | apps/piqueld-ui/src/auth.rs:161-165 | the flag is set exactly when two grants are limited to different applications |
| `GrantSelections.EditingIsIdentityUnlessMixed` | apps/piqueld-ui/src/auth.rs:167-199 | reading a set into the editor and back is the identity exactly when the selection is not flagged mixed |
| `GrantSelections.EditingCoversUnlessAllIsMixedWithLists` | apps/piqueld-ui/src/auth.rs:161-182 | the result covers the original exactly when the set does not mix every application with lists |
| `LineDiff.FillTable` | apps/piqueld-ui/src/changes.rs:93-103 | the nested reverse loops leave in each cell the length for that pair of suffixes |
| `LineDiff.Walk` | apps/piqueld-ui/src/changes.rs:104-125 | the walk and both remainders give the diff of the two sides |
| `LineDiff.DiffLines` | apps/piqueld-ui/src/changes.rs:87-126 | table and walk together compute the diff |
| `LineDiff.NoCommonSubsequenceIsLonger` | apps/piqueld-ui/src/changes.rs:93 | no common subsequence is longer than the recurrence says |
| `LineDiff.DiffShowsBothSides` | apps/piqueld-ui/src/changes.rs:87-89 | without added lines the diff is the old text, without removed lines the new one, and its common lines are as many as the table says |
| `LineDiff.CommonLinesAreLongest` | apps/piqueld-ui/src/changes.rs:87-89 | the common lines are a common subsequence and at least as long as any other |
| `LineDiff.DiffIsShortest` | apps/piqueld-ui/src/changes.rs:87-126 | no list of marked lines showing both sides is shorter; the length is both lengths less the common one |
| `LineDiff.RemovalsComeFirst` | apps/piqueld-ui/src/changes.rs:110-122 | a block of changed lines shows all it removes before all it adds |
| `Utf8.FirstIsLocal` | apps/piqueld/src/build.rs:33-44 | a unit is decided by its own bytes, and any shorter prefix of it is a character cut off by the end |
| `Encoding.CharactersAreEncodings` | apps/piqueld/src/build.rs:33-44 | a stream starts with a character of n bytes exactly when these are the RFC 3629 encoding of some character number |
| `Encoding.CutsAreLongestBeginnings` | apps/piqueld/src/build.rs:38-40 | it starts with a truncated character of n bytes exactly when no encoding is a prefix of it and these are the longest start of one |
| `Encoding.StraysBeginNothing` | apps/piqueld/src/build.rs:38-41 | otherwise its first byte starts no encoding |
| `Encoding.LossyByEncodings` | apps/piqueld/src/store/build.rs:399 | lossy decoding by encodings alone: a character for an encoding, one replacement for the longest start of one or for a stray byte |
| `Encoding.WellFormedMeansEncoded` | apps/piqueld/src/build.rs:33-44 | every well-formed stream is the encoding of a sequence of character numbers |
| `Encoding.EncodedIsWellFormed` | apps/piqueld/src/store/build.rs:399 | every such encoding is well formed and decodes to its characters |
| `Utf8.AfterSettled` | apps/piqueld/src/build.rs:23-27 | cut where no character is truncated, two pieces parse and decode as the whole does, and are well formed exactly when it is |
| `Utf8.HeldBackIsTrailing` | apps/piqueld/src/build.rs:23-27 | the documented promise, that only a trailing incomplete character is held back, holds exactly when no truncated character is followed by more bytes |
| `Utf8.InnerCutHoldsEverything` | apps/piqueld/src/build.rs:35-42 | otherwise the flush point never moves again, whatever follows |
| `Utf8.HoldingIsTemporary` | apps/piqueld/src/command.rs:143-144 | something read later can release everything exactly under that condition, and then three bytes are enough |
| `Utf8.AtMostThreeHeldBack` | apps/piqueld/src/build.rs:33-44 | under that condition at most three bytes are held back at every point of the stream |
| `OutputStream.CompletePrefix` | apps/piqueld/src/build.rs:33-44 | the loop over decoded chunks, validating each invalid part by itself, returns the length before the first truncated character |
| `OutputStream.FlushingContinues` | apps/piqueld/src/command.rs:161-166 | flushing pending bytes and a new read appends exactly what newly settled, however reads split the stream |
| `OutputStream.TailRecorded` | apps/piqueld/src/command.rs:145-171 | the tail is the last 8192 bytes of the stream; after each read exactly the settled part was appended; all pieces concatenate to the stream and, decoded one by one, read like it; a failing read or append ends the loop with the pieces so far |
| `OutputStream.TailIsSuffix` | apps/piqueld/src/command.rs:46-47 | the tail is the end of the stream, all of it up to 8192 bytes |
| `OutputStream.AtMostThreeWait` | apps/piqueld/src/command.rs:161-166 | for streams without inner truncated characters at most three bytes wait between reads |
| `OutputStream.PiecesAreWellFormed` | apps/piqueld/src/command.rs:161-166 | a well-formed stream is appended in well-formed pieces only |
| `BuildLogs.ChunkingIsStuck` | apps/piqueld/src/store/build.rs:119-141 | storing makes no progress exactly when a truncated character and what follows exceed 4096 bytes |
| `BuildLogs.ChunksCarryText` | apps/piqueld/src/store/build.rs:86-89 | otherwise the chunks concatenate to the text, none is empty or over 4096 bytes, and decoding them one by one reads like the whole |
| `BuildLogs.WhichPiecesCanBeStored` | apps/piqueld/src/command.rs:155-166 | pieces flushed while reading can always be stored, the final one exactly when it fits one chunk |
| `BuildLogs.SingleByteEncodingIsHeldBack` | apps/piqueld/src/build.rs:33-44 | a concrete stream that is held back for ever, and from which length its last piece cannot be stored |
| `BuildLogs.InsertChunks` | apps/piqueld/src/store/build.rs:119-141 | the insertion loop appends those chunks' rows without gap or overlap, or fails exactly when it is stuck |
| `BuildLogs.ContiguousRows` | apps/piqueld/migrations/0005_structured_build_logs.sql:8-15 | in a stored log offsets ascend and none reaches its recorded size |
| `BuildLogs.StoredLog.Append` | apps/piqueld/src/store/build.rs:90-153 | a piece is stored up to the cap, cut where it may be flushed, unless the log is truncated, expired or finished; it fails, changing nothing, exactly when a truncated character and what follows exceed a chunk |
| `BuildLogs.KeptFillsRoom` | apps/piqueld/src/store/build.rs:110-118 | a piece that fits is kept whole; otherwise no more than fits is kept, cut where nothing is truncated, within three bytes of the cap unless a truncated character is followed by more |
| `BuildLogs.StoredLog.constructor` | apps/piqueld/migrations/0005_structured_build_logs.sql:8-15 | a build starts with no output |
| `BuildOutput.LogCarriesStream` | apps/piqueld/src/command.rs:119-125 | however the appends of two streams interleave, each stream's rows are its pieces in order, cut only where the log was truncated, and decoded one by one read like the whole |
| `BuildOutput.LogIsContiguous` | apps/piqueld/src/store/build.rs:119-152 | after any appends of either stream the rows follow one another without gap or overlap |
| `BuildOutput.RowsComeFromAppends` | apps/piqueld/src/store/build.rs:128-135 | every row has the stream and time of an append |
| `BuildOutput.CapIsKept` | apps/piqueld/src/store/build.rs:87-88 | the stored output never exceeds the cap and is whole, and not marked truncated, exactly while all pieces fit |
| `BuildOutput.ShownText` | apps/piqueld/src/store/build.rs:392-402 | the texts of a stream's chunks, each decoded on its own, concatenate to its rows decoded one after another |
| `BuildOutput.ShownInOrder` | apps/piqueld/src/store/build.rs:338-340 | the chunks of a stored log come in the order reassembly needs |
| `BuildOutput.StreamIsShownTruly` | apps/piqueld-ui/src/log_output.rs:31-35 | end to end: the lines shown for a stream are the lines of its output decoded at once, a prefix of it only if the log was truncated or output is still to come |
| `BuildOutput.LinesStandInStoredOrder` | apps/piqueld-ui/src/log_output.rs:68-69 | the lines of a log stand in the order the rows holding their first bytes were stored, with the stream and time of these rows |
| `BuildOutput.ReplacementIsEncoded` | apps/piqueld/src/store/build.rs:399 | what cannot be decoded is shown as U+FFFD |
| `BuildOutput.WellFormedStreamIsShownExactly` | apps/piqueld-ui/src/log_output.rs:31-35 | a well-formed stream that fits the cap is shown line by line as it was printed, each line cleaned |
| `Sorting.KeepSort` | apps/piqueld-ui/src/log_output.rs:68 | sorting stably and keeping some elements commute |
| `Sorting.StableSortIsUnique` | apps/piqueld-ui/src/log_output.rs:68 | any sorted result keeping equal elements in order is the one modelled |
| `LogLines.LinesKeepText` | apps/piqueld-ui/src/log_output.rs:46 | splitting loses no byte, and a newline ends each line but possibly the last and is nowhere else |
| `LogLines.TrimRemovesNewline` | apps/piqueld-ui/src/log_output.rs:62 | trimming a split line removes its own newline and nothing else |
| `LogLines.ReassembleStream` | apps/piqueld-ui/src/log_output.rs:38-66 | joining a stream and walking its lines gives every line with its key |
| `LogLines.KeyLines` | apps/piqueld-ui/src/log_output.rs:44-66 | the two indices, which only advance, find for every line the chunk of its first byte |
| `LogLines.LinesAreDated` | apps/piqueld-ui/src/log_output.rs:52-64 | every line of a stream appears once, with the offset and time of the chunk holding its first byte |
| `LogLines.Build` | apps/piqueld-ui/src/log_output.rs:35-70 | both streams' lines, sorted by offset and position |
| `LogLines.LinesStandInOffsetOrder` | apps/piqueld-ui/src/log_output.rs:68 | the result is exactly the lines of both streams, each once, and a line from a chunk of smaller offset stands before every line from a chunk of larger offset |
| `LogLines.ResultKeepsEachStream` | apps/piqueld-ui/src/log_output.rs:31-33 | for chunks in offset order, the result restricted to a stream is that stream's lines, all, in order |
| `Deployments.DeploymentList.MergeNewest` | apps/piqueld-ui/src/deployments.rs:25-43 | in place: flags cleared, items replaced or pushed, sorted |
| `Deployments.DeploymentList.AppendOlder` | apps/piqueld-ui/src/deployments.rs:45-51 | in place: items with new IDs pushed |
| `Deployments.MergingPrefersPage` | apps/piqueld-ui/src/deployments.rs:25-43 | the merged list descends strictly and holds the page's items as they are and all others without the flags the page carries |
| `Deployments.MergingKeepsOneHolder` | apps/piqueld-ui/src/deployments.rs:15-18 | at most one deployment holds each flag afterwards |
| `Deployments.MergingIsIdempotent` | apps/piqueld-ui/src/deployments.rs:25-43 | merging the same page again changes nothing |
| `Deployments.AppendingKeepsListed` | apps/piqueld-ui/src/deployments.rs:20-21 | what is listed stays a prefix, IDs stay distinct, and exactly the page's unlisted deployments are added |
| `Deployments.AppendingContinuesOrder` | apps/piqueld-ui/src/deployments.rs:45-51 | a page of older deployments keeps the list descending |
| `Durations.PrintingReadsBack` | apps/piquelctl/src/support.rs:225-236 | a printed duration reads back as itself exactly when it is positive, whole in milliseconds, and its milliseconds fit the number read unless whole in seconds |
| `Durations.ReadDurationsRoundTrip` | apps/piquelctl/src/cli.rs:661-699 | every duration that can be read is printed as text that reads back as it |
| `Durations.ReadingMeans` | apps/piquelctl/src/cli.rs:661-699 | what a text means: digits and a suffix, or digits alone for seconds, amount to that many milliseconds, refused exactly when too large or zero |
| `Durations.OnlyNumbersAreRead` | apps/piquelctl/src/cli.rs:683-689 | any other text is refused as not a number |
| `Durations.PrintingRoundsDown` | apps/piquelctl/src/support.rs:225-236 | a printed duration reads back rounded down to milliseconds, and is printed in milliseconds exactly when it is not whole in seconds |
| `Durations.UnitsAreExact` | apps/piquelctl/src/cli.rs:672-682 | no unit wraps around: the result is the exact multiple, refused exactly when its seconds do not fit 64 bits |
| `Durations.DecimalReadsBack` | apps/piquelctl/src/cli.rs:687-692 | printed numbers are digits that read back as the number |
| `LoginStore.FirstKey` | apps/piquelctl/src/auth.rs:163-165 | the reselected account is the least ID, or nothing |
| `LoginStore.Credentials.Remove` | apps/piquelctl/src/auth.rs:150-167 | in place: the account goes only if it still holds the token, and the selection is repaired |
| `LoginStore.Credentials.SaveUsername` | apps/piquelctl/src/auth.rs:201-211 | in place: the saved username changes, if there is a login |
| `LoginStore.Credentials.SaveLogin` | apps/piquelctl/src/auth.rs:430-444 | in place: the login is saved and selected, in a new endpoint if needed |
| `LoginStore.UpdatesKeepSelections` | apps/piquelctl/src/auth.rs:150-167 | after every update each endpoint selects one of its accounts, or has none and selects nothing |
| `LoginStore.SelectionAfterUpdate` | apps/piquelctl/src/auth.rs:163-165 | an endpoint's selection is valid after an update exactly when it was before or the update is a login or logout there |
| `LoginStore.OnlyNamedLoginChanges` | apps/piquelctl/src/auth.rs:150-162 | a login disappears only through a logout holding its very token, and appears or changes its token only through a login naming it |
| `LoginStore.LogoutTakesEffect` | apps/piquelctl/src/auth.rs:150-167 | a logout drops the account exactly if it still holds the token, keeps a selection still saved and otherwise selects the least account left |
| `LoginStore.LoginTakesEffect` | apps/piquelctl/src/auth.rs:430-444 | a login saves the account as given and selects it |
| `LoginStore.RenameTakesEffect` | apps/piquelctl/src/auth.rs:189-207 | a rename changes the username of a saved login only, and nothing without one |
| `LoginStore.UpdatesLeaveOthers` | apps/piquelctl/src/auth.rs:150-167 | every other account keeps username and token, and every other endpoint everything |
| `LoginProtocol.StepKeepsInv` | apps/piquelctl/src/auth.rs:106-143 | every step of every process keeps the invariant tying the file, the lock and the copies in memory together |
| `LoginProtocol.FileFollowsLockOrder` | apps/piquelctl/src/auth.rs:106-117 | under any interleaving the file equals the committed updates applied in lock order, and one process at most is inside |
| `LoginProtocol.ReadersFindValidSelections` | apps/piquelctl/src/auth.rs:106-117 | readers, who take no lock, always find valid selections |
| `LoginProtocol.NoLoginIsLost` | apps/piquelctl/src/auth.rs:154-155 | every login saved in any run is still in the file, had its token revoked, or was replaced by a later login of the account |
| `LoginProtocol.VanishedTokensWereRevoked` | apps/piquelctl/src/auth.rs:472-498 | a token leaves the file only if it was revoked or a login of the same account replaces it |
| `LoginProtocol.LogoutsAreLasting` | apps/piquelctl/src/auth.rs:493-498 | in every run a token whose logout reached the file is saved for that account again only if a later login brought it back |
| `LoginProtocol.OnlyCommitsChangeFile` | apps/piquelctl/src/auth.rs:106-117 | in every run the file changes only by a rename over it, and then by exactly that process's update |
| `LoginProtocol.OperationsComplete` | apps/piquelctl/src/auth.rs:110-143 | an operation that nothing interrupts makes its update, releases the lock and ends, a logout having revoked its token |
| `PrivateFile.CrashFinds` | apps/piqueld/src/directories.rs:55-59 | whatever a crash leaves is among what may be found, and is durable |
| `PrivateFile.CrashMayLeave` | apps/piqueld/src/directories.rs:55-59 | everything that may be found some crash leaves |
| `PrivateFile.OwnLegacyName` | apps/piqueld/src/directories.rs:110-119 | a file is its own leftover under the old naming exactly when its name ends in `.tmp` after something else |
| `PrivateFile.LegacyReplacesExtension` | apps/piqueld/src/directories.rs:110-119 | the old temporary name replaces the extension or is appended without one |
| `PrivateFile.TemporariesTellDigest` | apps/piqueld/src/directories.rs:142-149 | files with different digests of one length never share a temporary's name |
| `PrivateFile.RemoveTemporaries` | apps/piqueld/src/directories.rs:110-131 | exactly the file's temporaries are gone, and it tells whether any existed |
| `PrivateFile.Write` | apps/piqueld/src/directories.rs:55-77 | every state on the way has the old contents or the new, now and after a crash, unless the name is a temporary's; at the end only the new contents and no temporary survive, and other files are as before |
| `PrivateFile.Remove` | apps/piqueld/src/directories.rs:79-94 | afterwards neither the file nor a temporary is listed, and every state on the way unlinks one of them or is the result |
| `PrivateFile.RemovalIsDurableIff` | apps/piqueld/src/directories.rs:79-91 | removal is durable exactly when it finds something to remove or nothing could come back before |
| `PrivateFile.InterruptedRemovalMayComeBack` | apps/piqueld/src/directories.rs:86-90 | a removal stopped before its sync leaves a state that removing again does not change and from which the file may return |
| `PrivateFile.WriteStateIsOldOrNew` | apps/piqueld/src/directories.rs:63-77 | any state a write can be stopped in has the old contents or the new, now and after a crash, for a file not named like its temporaries |
| `PrivateFile.OnlyWrittenContentsAreFound` | apps/piqueld/src/directories.rs:55-91 | through any series of writes and removals stopped anywhere, and of crashes, a file not named like its temporaries has only contents it might have had at first or a write was given, and is missing only if it might have been or a removal was among them |
| `PrivateFile.CompletedWriteSurvives` | apps/piqueld/src/directories.rs:55-59 | after a write that completed, whatever follows, its contents are found unless a later turn writes others or removes the file |

## Left out

- BuildLogs.StoredLog.Append: does not model overflow of 64-bit offsets; a failed insertion is the primary key's, not the database's own.
- BuildOutput.StreamIsShownTruly: shows a log from its first chunk; a page of newer chunks alone starts where the page does.
- AccessRuns.AccessNeverGrows: does not model enrollment links, first-account setup, recovery and device logins, expiry, deletion of accounts, callers other than accounts, such as the host operator, who is unrestricted, nor the rule that an administrator must remain; application IDs are taken to be fresh. The state machine is on values, since the store's state is database rows.
- LoginProtocol.StepKeepsInv: does not model a loss of power or failing I/O apart from stopping; a logout may name any saved login, which includes the one found by name.
- PrivateFile.Write: does not model two writers of one file at once, failing I/O apart from stopping at that state, or the symlink and permission rules; the random part of the temporary's name and the hash of the file's name are parameters.
- Sorting.KeepSort: the standard library's in-place sort is a function here, which `StableSortIsUnique` justifies.
- LogLines.Build: message cleaning is a parameter, and times are integers.
- LineDiff.DiffLines: takes lines; splitting text into lines and pretty-printing values are not modelled.
- Deployments.MergingPrefersPage: operation IDs are integers, of which only the order matters.
- `Credentials::selected`, which finds an account by ID or username, and the file permission checks around the credentials.
- Role presets, wire and display names, JSON and OpenAPI forms; application IDs are strings compared for equality.
- HTTP clients, endpoints and command dispatch: plumbing without invariants of its own.
- Git, Docker, processes, signals and terminals: the behaviour is that of foreign code.
- The checks of ownership and permissions along a directory path: tests of operating system metadata.
- Attempt histories, paging counters and form drafts: they would only add easy members.
- The audit log's hash chain is not part of this model.
