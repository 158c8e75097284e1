# UserAutomationService in Dafny

This project models the decision logic of UserAutomationService, the batch tool an
institution runs to turn an enrolment spreadsheet into accounts. For each candidate
row the tool:

- validates and normalises the row's fields;
- decides whether the person already has an institutional directory account (matched
  by a sorted-token name key against the directory's roster) or needs a new one;
- allocates a collision-free address `first.last@domain` for each new person, and when
  that is taken tries prefixes of the second surname, then numeric suffixes 1..9999;
- creates the directory account with a temporary password, places it in the group for
  its role (student or teacher), retrying the group assignment, and lists accounts left
  without their group for manual follow-up;
- then registers the people in the institution's web portal and sends welcome mails.

Every directory, browser and mail-service reply, every random draw and every operator
answer is a parameter of the model. What is modelled is what the tool does with those
replies.

The modules follow the source files:

- `Wrappers`: `Option` and `Result`.
- `Text`: the Python string built-ins the source uses (`lower`, `upper`, `strip`,
  `split`, `join`, `title`, `sorted`, `str(int)`). Whitespace is the full set
  `str.isspace()` accepts; letters and case mapping cover ASCII plus the Spanish
  accented letters.
- `Records`: the user record that flows through the pipeline, and its status filters.
- `Schemas`: the field validators and name-part extraction.
- `ExcelProcessor`: the column check and the all-or-nothing row aggregation.
- `EmailGenerator`: the address normaliser, the comparison key, the roster index, and
  the allocator. The allocator is a class with the directory's address set, the
  batch's address set and the roster map as fields.
- `UserProcessor`: the resolve-or-allocate loop over an array of records.
- `GraphApi`: the response classifiers, the group-id cache, and the paging loops.
- `UserCreator`: the group mapping, the retry loop, the per-record provisioning, and
  the results list with the follow-up list attached.
- `AppConnecto`: the portal mappings and the portal result summary.
- `EmailSender`: the welcome-mail outcome and the sent/failed report.
- `PasswordGenerator`: the rejection loop and the batch of distinct passwords.
- `MainFlow`: the confirmation prompt, the early exits, the filters between the phases,
  and the portal phase's partition.

## Model

| member | source | states |
|---|---|---|
| Records.WithStatus | main.py:320-321 | keeps exactly the records carrying the status, each as often as in the input; `WithStatusConcat` and `WithStatusOne` give the input order |
| Records.WithStatusOne | main.py:320-321 | a single record is kept exactly when it carries the status |
| Records.CountNewExisting | app/user_processor.py:72-102 | when every record is new or existing, the new and existing counters add up to the list's length |
| Records.WithStatusConcat | app/user_creator.py:111-112 | filtering by status distributes over concatenation |
| Schemas.TitleStrippedIdempotent | app/schemas.py:93 | stripping then title-casing twice is the same as doing it once |
| Schemas.ValidateRequestType | app/schemas.py:52-78 | an accepted request type is one of the allowed types |
| Schemas.RequestTypeAccepted | app/schemas.py:68-78 | accepted exactly when the stripped, title-cased value is allowed; the result is that form, and validating it again gives the same result |
| Schemas.RequestTypeExamples | app/schemas.py:52-78 | " apertura " is accepted as "Apertura"; "Actualización" is rejected |
| Schemas.ValidateVinculationType | app/schemas.py:203-229 | an accepted role is one of the allowed roles |
| Schemas.VinculationTypeAccepted | app/schemas.py:219-229 | accepted exactly when the stripped, title-cased value is allowed; the result is that form, and it is stable under revalidation |
| Schemas.ValidateFullName | app/schemas.py:80-93 | never rejects; the result is stripped, as long as the stripped input, and its words are the stripped input's words, each title-cased |
| Schemas.FullNameIdempotent | app/schemas.py:80-93 | validating a validated given name changes nothing |
| Schemas.FullNameExample | app/schemas.py:80-93 | "  Pedro  " gives "Pedro" |
| Schemas.ValidateAcademicProgram | app/schemas.py:231-243 | never rejects; the result is the input with only leading and trailing whitespace removed, and is stripped |
| Text.StripCore | app/schemas.py:243 | `strip()` removes only whitespace, and only at the two ends |
| Schemas.ValidateFullLastName | app/schemas.py:95-131 | the word loop computes `FullLastName` |
| Schemas.FullLastNameWords | app/schemas.py:111-131 | the result's words are the title-cased words of the stripped input, with every particle after the first word lower-cased |
| Schemas.JoinWordsStripped | app/schemas.py:129-131 | words joined by single spaces have no whitespace at either end |
| Schemas.FullLastNameIdempotent | app/schemas.py:95-131 | a family name the validator produced is left as it is |
| Schemas.FullLastNameParticles | app/schemas.py:111-131 | "SILVA DE LA CRUZ" becomes "Silva de la Cruz" |
| Schemas.FullLastNameLeadingParticle | app/schemas.py:111-131 | "DEL CARMEN RODRIGUEZ" becomes "Del Carmen Rodriguez": a particle is lower-cased only after the first word |
| Schemas.ValidateTypeDocument | app/schemas.py:133-174 | an accepted document type is "C.C" or "C.E" |
| Schemas.TypeDocumentAccepted | app/schemas.py:151-174 | after strip and upper-case, the three spellings of each type map to "C.C" or "C.E", and everything else is rejected |
| Schemas.TypeDocumentIdempotent | app/schemas.py:151-174 | a normalised document type is accepted as itself |
| Schemas.TypeDocumentExamples | app/schemas.py:151-174 | "cc" gives "C.C" and " C.E. " gives "C.E" |
| Schemas.ValidateIdentificationId | app/schemas.py:176-201 | an accepted identification number is non-empty and all digits |
| Schemas.IdentificationIdAccepted | app/schemas.py:192-201 | accepted exactly when the stripped value is non-empty and all digits; then it is returned stripped and unpadded, and it is stable under revalidation |
| Schemas.IdentificationIdExamples | app/schemas.py:192-201 | "  456  " gives "456"; "abc123" and "" are rejected |
| Schemas.Validate | app/schemas.py:15-243 | building the schema runs every validator; a rejection carries at least one field error |
| Schemas.ValidateAccepts | app/schemas.py:15-243 | the record is accepted exactly when every validator accepts its field, and then holds each validator's output |
| Schemas.ValidateReportsFailingFields | app/schemas.py:15-243 | a rejection names every failing field and only failing fields, with at most four entries |
| Schemas.NamePartsOfWords | app/schemas.py:263-269 | the first token of the given names, and the first and second tokens of the family names, or "" when absent |
| Schemas.UserSchema.ExtractNamesForEmail | app/schemas.py:245-271 | sets the three name parts from the tokens and changes no other field |
| Schemas.UserSchema.ModelDump | app/excel_processor.py:241 | the dumped record carries the extracted name parts, no status and no creation data |
| Schemas.UserSchema.constructor | app/schemas.py:37-50 | the validated fields are stored, and the name parts and the institutional address start unset |
| Schemas.Candidate | app/excel_processor.py:235-241 | a validated row's record has its name parts taken from the first and second tokens |
| Schemas.BuildCandidate | app/excel_processor.py:235-241 | building the schema object, extracting the names and dumping it gives `Candidate` |
| Schemas.CandidateExample | app/schemas.py:276-289 | "Laura Sofia" / "Becerra Sandoval" gives Laura, Becerra, Sandoval |
| ExcelProcessor.Headers | app/excel_processor.py:32-41 | the required headers are the mapping's keys, in order |
| ExcelProcessor.HeadersDistinct | app/excel_processor.py:32-41 | the eight headers are pairwise different |
| ExcelProcessor.MissingMembers | app/excel_processor.py:140-142 | a header is missing exactly when it is required and not among the sheet's columns |
| ExcelProcessor.ValidateColumns | app/excel_processor.py:130-149 | a rejection always lists some missing header |
| ExcelProcessor.ValidateColumnsExact | app/excel_processor.py:140-147 | rejects exactly when some required header is absent; the listed headers are sorted, duplicate-free, and exactly the absent ones |
| ExcelProcessor.SortedMissingExact | app/excel_processor.py:140-147 | the sorted missing headers are sorted, duplicate-free, and exactly the required headers the sheet lacks |
| ExcelProcessor.FirstMissing | app/excel_processor.py:229-232 | no header is reported exactly when every header has a cell; a reported header lacks its cell |
| ExcelProcessor.RowFieldsFollowMapping | app/excel_processor.py:229-232 | a row fails exactly when a mapped column is absent, naming that column; otherwise each schema field comes from its mapped column |
| ExcelProcessor.RowMessageNumbered | app/excel_processor.py:225-250 | every row message starts with "Fila n: ", where n is the index plus one plus the skipped rows |
| ExcelProcessor.RowOutcomeAccepts | app/excel_processor.py:227-241 | a row is accepted exactly when it has every column and the schema accepts it; its record has its name parts extracted |
| ExcelProcessor.RejectedComplete | app/excel_processor.py:243-257 | every rejected row's message is in the error list |
| ExcelProcessor.RejectedSound | app/excel_processor.py:243-257 | every message in the error list belongs to a rejected row |
| ExcelProcessor.RejectedEmpty | app/excel_processor.py:260 | the error list is empty exactly when every row is accepted |
| ExcelProcessor.AcceptedAll | app/excel_processor.py:241-266 | with every row accepted, there is one record per row, in row order |
| ExcelProcessor.ProcessRowsAllOrNothing | app/excel_processor.py:221-266 | either the records of all rows, in order, or an error and no records |
| ExcelProcessor.ProcessRowsReportsEveryRow | app/excel_processor.py:243-264 | the raised report names every rejected row, and only rejected rows |
| ExcelProcessor.CheckedColumnsNoUnexpected | app/excel_processor.py:229-232 | once the header check passes, a row with a cell for every column never fails with a missing column |
| ExcelProcessor.ExcelProcessor.ProcessRows | app/excel_processor.py:208-266 | the row loop returns or raises what `ProcessRowsSpec` says |
| ExcelProcessor.ExcelProcessor.constructor | app/excel_processor.py:43-50 | keeps the number of rows to skip |
| EmailGenerator.FilterAlnumChars | app/email_generator.py:270-276 | filtering keeps only alphanumeric characters of the input |
| EmailGenerator.RemoveSpacesChars | app/email_generator.py:278-282 | removing blanks keeps only characters of the input, and no blank |
| EmailGenerator.NormalizeForAddressChars | app/email_generator.py:229-284 | address mode yields only lower-case ASCII letters and digits: no spaces and no accents |
| EmailGenerator.NormalizeEmpty | app/email_generator.py:229-284 | the empty text normalises to "" in both modes |
| EmailGenerator.NormalizePlainName | app/email_generator.py:229-284 | a name of ASCII letters and digits normalises to its lower-case form |
| EmailGenerator.NormalizeTwoWordsForAddress | app/email_generator.py:278-282 | a text that folds to two alphanumeric words is glued into one in address mode |
| EmailGenerator.NormalizeTwoWordsForComparison | app/email_generator.py:270-276 | a text that folds to two alphanumeric words keeps them, one space apart, in comparison mode |
| EmailGenerator.NormalizeExample | app/email_generator.py:229-284 | "María José" gives "mariajose" in address mode and "maria jose" in comparison mode |
| EmailGenerator.CleanTokensPermutation | app/email_generator.py:203-227 | reordering the words does not change the multiset of cleaned tokens |
| EmailGenerator.SplitFilterJoin | app/email_generator.py:217-222 | comparison-mode filtering of the space-joined words, split again, is each word cleaned with empty ones dropped |
| EmailGenerator.ComparisonTokensAreClean | app/email_generator.py:203-227 | the comparison tokens are the folded words, each cleaned |
| EmailGenerator.ComparisonTokensOfFields | app/email_generator.py:170-201 | the tokens of the two fields joined by a space are the tokens of each field |
| EmailGenerator.ComparisonKeyIsDisplayKey | app/email_generator.py:170-227 | the two-field key equals the display-name key of the two fields joined by a space |
| EmailGenerator.ComparisonKeyWordOrder | app/email_generator.py:203-227 | two display names with the same folded words in any order have the same key |
| EmailGenerator.ComparisonKeySwap | app/email_generator.py:170-201 | swapping the given-name and family-name fields gives the same key |
| EmailGenerator.ComparisonKeySortedTokens | app/email_generator.py:203-227 | the key's words are the name's tokens, sorted, and a permutation of them |
| EmailGenerator.ComparisonKeyExample | app/email_generator.py:170-201 | "Laura Sofia" / "Becerra Sandoval" gives "becerra laura sandoval sofia" |
| EmailGenerator.LoadStep | app/email_generator.py:59-69 | one entry is loaded exactly when its lower-cased address and display name are non-empty, adding its address under its key |
| EmailGenerator.RosterLastWriteWins | app/email_generator.py:59-69 | a key maps to the lower-cased address of the last loadable entry with that key |
| EmailGenerator.RosterOtherKeys | app/email_generator.py:59-69 | a key that no loadable entry produces keeps its old binding, or stays absent |
| EmailGenerator.RosterEmailsMembers | app/email_generator.py:59-69 | a loaded address is the lower-cased address of some loadable entry, and every such address is loaded |
| EmailGenerator.RosterValuesNonEmpty | app/email_generator.py:59-69 | every indexed address is non-empty |
| EmailGenerator.RosterLookupSwap | app/email_generator.py:73-99 | the lookup does not depend on which field holds the given names |
| EmailGenerator.RosterLookupAfterLoad | app/email_generator.py:59-99 | after loading, a person whose key matches the last entry with that key is found with that entry's lower-cased address |
| EmailGenerator.RosterLookupMissing | app/email_generator.py:73-99 | a person that no loadable entry matches, and that was absent before, is not found |
| EmailGenerator.Ladder | app/email_generator.py:129-168 | the candidates in order: the base, then the base plus each prefix of the second surname, shortest first, then the base plus 1..9999 |
| EmailGenerator.FirstAvailable | app/email_generator.py:286-304 | the first candidate not taken, with every earlier one taken; or none when all are taken |
| EmailGenerator.FirstAvailableAt | app/email_generator.py:286-304 | the first free index is determined by which candidates are taken |
| EmailGenerator.FirstAvailableNone | app/email_generator.py:166-168 | with every candidate taken, none is available |
| EmailGenerator.PickAt | app/email_generator.py:133-162 | a ladder whose first free candidate is at k yields that candidate |
| EmailGenerator.PickNone | app/email_generator.py:166-168 | a ladder whose every candidate is taken yields the exhaustion error |
| EmailGenerator.AllocateIsFresh | app/email_generator.py:133-162 | the returned address, lower-cased, was neither in the directory's set nor in the batch at call time |
| EmailGenerator.AllocateLadderOrder | app/email_generator.py:129-168 | the result is the first free candidate of the ladder, or the error when none is free |
| EmailGenerator.AllocateBaseFirst | app/email_generator.py:129-137 | the base address is returned whenever it is free |
| EmailGenerator.AllocateSurnamePrefix | app/email_generator.py:139-150 | with the base and the shorter prefixes taken, the next free prefix of the second surname is returned |
| EmailGenerator.AllocateNumericOnlyAfterLetters | app/email_generator.py:139-162 | a numeric suffix is returned only when the base and every second-surname prefix are taken, and the counter is never above 9999 |
| EmailGenerator.AllocatedIsLowerCase | app/email_generator.py:229-284 | with a lower-case domain, the allocated address is lower case |
| EmailGenerator.RecordAgreesOverLowerCaseDomain | app/email_generator.py:135 | with a lower-case domain such as the default, the corrected recording and the recording as written give the same batch |
| EmailGenerator.LadderIsLowerCase | app/email_generator.py:125-162 | with a lower-case domain, every candidate of the ladder is lower case |
| EmailGenerator.AllocateNeverRepeats | app/email_generator.py:286-304 | once an address is recorded lower-cased, a later allocation never returns it again, whatever the case of the domain |
| EmailGenerator.AsWrittenRepeatsAddress | app/email_generator.py:135-300 | recording the address as written, with the domain "ECR.EDU.CO", the same person is given the same address twice |
| EmailGenerator.AllocateExampleFree | app/email_generator.py:118-120 | with nothing taken, Laura Becerra Sandoval gets "laura.becerra@ecr.edu.co" |
| EmailGenerator.AllocateExampleSecondPrefix | app/email_generator.py:139-150 | with the base and the one-letter prefix taken, Laura Becerra Sandoval gets "laura.becerrasa@ecr.edu.co" |
| EmailGenerator.Generator.constructor | app/email_generator.py:26-36 | the domain is kept and the three stores start empty |
| EmailGenerator.Generator.LoadExistingEmails | app/email_generator.py:38-46 | replaces the directory's address set by the lower-cased input, and changes nothing else |
| EmailGenerator.Generator.LoadExistingUsers | app/email_generator.py:48-71 | the roster becomes `IndexRoster` of the entries and the address set gains `RosterEmails` of them |
| EmailGenerator.Generator.GenerateEmail | app/email_generator.py:101-168 | returns `Allocate` at call time; on success the batch grows by exactly the lower-cased address (the corrected recording of line 135, see "## Findings"), on failure it is unchanged; the directory set and roster never change |
| EmailGenerator.Generator.GenerateFromLadder | app/email_generator.py:129-168 | the base test, then the two later phases, give the ladder's first free candidate |
| EmailGenerator.Generator.GenerateWithSurname | app/email_generator.py:139-150 | the prefix loop gives the ladder's first free candidate |
| EmailGenerator.Generator.GenerateWithCounter | app/email_generator.py:152-168 | the counter loop gives the ladder's first free candidate, or raises after 9999 |
| EmailGenerator.Generator.Remember | app/email_generator.py:134-162 | records an allocated address in the batch, lower-cased: the corrected form of line 135, which records it as written |
| EmailGenerator.Generator.ResetBatch | app/email_generator.py:306-313 | empties the batch set and changes nothing else |
| UserProcessor.AllocatorOfIsFresh | app/email_generator.py:101-168 | the allocation never hands out an address that, lower-cased, is in the directory or the batch |
| UserProcessor.ResolveAllLength | app/user_processor.py:75-105 | without a failure every record is resolved; with one, only the records before it are |
| UserProcessor.ResolveAllStep | app/user_processor.py:75-100 | one more record: matched, allocated, or the allocation's failure |
| UserProcessor.ResolveAllStops | app/user_processor.py:92-96 | once an allocation raises, later records change nothing |
| UserProcessor.ResolveAllFailsAt | app/user_processor.py:92-96 | a failure at record k leaves exactly the k records before it resolved |
| UserProcessor.ResolveAllAt | app/user_processor.py:79-100 | a matched record becomes existing with the roster's address; an unmatched one becomes new with the address allocated against the batch so far |
| UserProcessor.ResolveAllStatuses | app/user_processor.py:75-102 | every resolved record is new or existing, and the two counters add up to the records resolved |
| UserProcessor.ResolveAllKeepsFields | app/user_processor.py:84-100 | resolution writes only the address, status and message of a record |
| UserProcessor.ResolveAllFresh | app/user_processor.py:90-100 | the batch grows by exactly the new records' addresses; each was fresh, and no two new records share an address, even up to case |
| UserProcessor.IdenticalCandidatesDiffer | app/user_processor.py:66-97 | two identical unmatched candidates in one file are both new and get addresses that differ, even up to case |
| UserProcessor.UserProcessor.constructor | app/user_processor.py:28-38 | a fresh allocator for the domain, with empty stores |
| UserProcessor.UserProcessor.AllocateNext | app/user_processor.py:90-100 | one allocation of the loop extends the resolution, or ends it with the allocation's failure |
| UserProcessor.UserProcessor.ResolveNext | app/user_processor.py:76-100 | one iteration of the loop matches `ResolveAll` on one more record |
| UserProcessor.UserProcessor.ResolveUsers | app/user_processor.py:75-100 | the array's resolved prefix is `ResolveAll` of the input, the rest of the array is untouched, and the batch is the resolution's batch |
| UserProcessor.UserProcessor.ProcessFile | app/user_processor.py:40-105 | loads the roster and address set from the directory's entries, then resolves the records as `ResolveUsers` does |
| GraphApi.AddUserToGroup | app/graph_api.py:315-371 | success requires status 204 or 400, 204 is always a success, and a 400 succeeds exactly when its lower-cased body contains "already exist" or "already a member" |
| GraphApi.AlreadyExistsAccepted | app/graph_api.py:353-371 | a 400 whose body contains "already exists", in any case, is a success |
| GraphApi.AddUserToGroupIgnoresCase | app/graph_api.py:362 | the classification ignores the letter case of the body |
| GraphApi.AddUserToGroupFailures | app/graph_api.py:353-371 | a 400 not saying the user is already a member fails, as does every status but 204 and 400 |
| GraphApi.EmailExists | app/graph_api.py:159-186 | the address exists exactly on status 200 |
| GraphApi.SendEmail | app/graph_api.py:418-486 | a mail is sent exactly on status 202 |
| GraphApi.MailNickname | app/graph_api.py:276 | the nickname is no longer than the address |
| GraphApi.MailNicknameShape | app/graph_api.py:276 | the nickname is the longest '@'-free prefix of the address |
| GraphApi.MailNicknameOfAddress | app/graph_api.py:276 | an address made of an '@'-free local part and a domain has that local part as its nickname |
| GraphApi.CreateUserBody | app/graph_api.py:262-282 | the account is enabled, the address is both sign-in name and mail, the nickname is an '@'-free prefix of it, and a password change is forced at first sign-in |
| GraphApi.CreateUser | app/graph_api.py:239-313 | success exactly on 201, with the new id; otherwise no id and the body text as the error |
| GraphApi.GroupLookupCache | app/graph_api.py:188-237 | a cached name is answered from the cache without change; a found group's first id is returned and cached; otherwise none and nothing cached |
| GraphApi.GroupLookupRepeat | app/graph_api.py:206-208 | once a group is found, every later lookup returns the same id, whatever the response |
| GraphApi.Address | app/graph_api.py:87-92 | the address of an entry is `mail`, else `userPrincipalName`; when there is one, it is non-empty |
| GraphApi.StoredAddress | app/graph_api.py:87-92 | a kept address is stored lower-cased and ends with "@" and the domain |
| GraphApi.ChainLength | app/graph_api.py:81-99 | the loop requests pages up to and including the first page that is an error or has no next link |
| GraphApi.EntryEmailsExact | app/graph_api.py:87-92 | a page's gathered addresses are exactly the stored addresses of its kept entries |
| GraphApi.PagesEmailsWellFormed | app/graph_api.py:62-102 | every gathered address is lower case and in the domain |
| GraphApi.EntryInfosAgree | app/graph_api.py:138-147 | on one page, the addresses of the listed pairs are the addresses the address listing gathers |
| GraphApi.PagesInfosAgree | app/graph_api.py:62-157 | the addresses of the listed pairs are the set that the address listing gathers |
| GraphApi.GetAllUserEmails | app/graph_api.py:62-102 | follows the next links until a terminal page, gathering the kept addresses of the pages requested |
| GraphApi.EntryEmailsOf | app/graph_api.py:87-92 | the loop over one page's entries gathers `EntryEmails` |
| GraphApi.GetAllUsersInfo | app/graph_api.py:104-157 | the same paging, gathering (address, display name) pairs in order |
| GraphApi.EntryInfosOf | app/graph_api.py:138-147 | the loop over one page's entries gathers `EntryInfos` |
| GraphApi.GraphClient.constructor | app/graph_api.py:13-28 | the group cache starts empty and no search has been sent |
| GraphApi.GraphClient.GetGroupId | app/graph_api.py:188-237 | the id and the new cache are `GroupLookup`'s; a search is sent exactly when the name is not cached |
| UserCreator.GroupForVinculation | app/user_creator.py:33-49 | teachers go to the teacher group, and every other value goes to the student group |
| UserCreator.FirstSuccessFrom | app/user_creator.py:70-80 | the first successful attempt, with every earlier one failed; or none when all fail |
| UserCreator.AssignWithRetry | app/user_creator.py:51-89 | succeeds exactly when some attempt within the budget succeeds, stopping there; makes at most the budget of attempts; waits only between attempts |
| UserCreator.ProvisionPartition | app/user_creator.py:135-216 | in create mode each record is exactly one of: created with its group, created without it, not created; it is queued for follow-up exactly when created without its group |
| UserCreator.ProvisionGroupNotFound | app/user_creator.py:173-189 | a missing group leaves the account created, without group, with "Grupo '<name>' no encontrado", and queued |
| UserCreator.ProvisionFailedKeepsPassword | app/user_creator.py:190-198 | a failed creation keeps the generated password and records the directory's error, or "Error desconocido" |
| UserCreator.ProvisionKeepsFields | app/user_creator.py:155-214 | provisioning writes only the creation keys of a record |
| UserCreator.ProvisionAllAt | app/user_creator.py:119-216 | the provisioned records are, in input order, each new record provisioned with its own password and reply |
| UserCreator.ProvisionAllLength | app/user_creator.py:119-216 | one provisioned record per new record, and no more pending entries than records |
| UserCreator.ProvisionAllCounts | app/user_creator.py:227-235 | in create mode, created-with-group, without-group and not-created counts add up to the new records, and the follow-up list holds exactly those created without group |
| UserCreator.SimulationCreatesNothing | app/user_creator.py:199-205 | in simulation mode nothing is created or queued |
| UserCreator.ProvisionAllNew | app/user_creator.py:111-207 | the provisioned records are still marked new |
| UserCreator.MarkAllExisting | app/user_creator.py:219-224 | each existing record comes back not created, without password, group or error |
| UserCreator.FirstNonMetadata | app/user_creator.py:255-259 | the first entry that is not a metadata item, or none |
| UserCreator.AttachPending | app/user_creator.py:254-265 | the follow-up loop computes `Attach` |
| UserCreator.AttachKeepsShape | app/user_creator.py:254-265 | with some record present the follow-up list goes onto the first record, and no metadata item is appended |
| UserCreator.ProvisionOne | app/user_creator.py:119-216 | the loop body for one new record, with the retry, computes `Provision`: the simulation branch, then, in the order the requests meet them, a refused token, a missing address, a raising, failing or successful creation request, and an exception after the account exists |
| UserCreator.ProvisionSimulation | app/user_creator.py:199-205 | in simulation mode a record is not created, keeps its password and group, and queues nothing |
| UserCreator.ProvisionTokenRefused | app/graph_api.py:30-41 | in create mode a refused token fails the record with "Error de autenticación: " and the description, with or without an address, without password or group, and queues nothing |
| UserCreator.ProvisionWithoutAddress | app/user_creator.py:209-216 | in create mode, once the token is granted, a record without an address fails with the error `split` raises on `None`, without password or group, and queues nothing |
| UserCreator.ProvisionRaisedAfterCreation | app/user_creator.py:209-216 | an exception after the account was created (group lookup or assignment) reports the record as not created, without id, password or group, and does not queue it |
| UserCreator.ProvisionNew | app/user_creator.py:119-216 | the loop over new records gives `ProvisionAll`, and, only in create mode, sends one creation request per new record with an address whose token was granted |
| UserCreator.AppendExisting | app/user_creator.py:218-224 | appends the existing records, marked as not created, in order |
| UserCreator.CreateUsers | app/user_creator.py:91-268 | the results are `CreateUsersSpec`, and one creation request is sent per new record with an address whose token was granted |
| UserCreator.CreateUsersShape | app/user_creator.py:110-265 | the results are the new records provisioned in input order, then the existing ones marked not created; no other status and no metadata item; the follow-up list sits on the first result |
| AppConnecto.MapVinculationToRole | app/appconnecto.py:147-163 | the role is "Docentes" exactly for "Docente", and "Estudiantes" otherwise |
| AppConnecto.MapDocumentType | app/appconnecto.py:165-179 | the value is "2" exactly for "C.E", and "1" otherwise |
| AppConnecto.MappingsOnValidatedValues | app/appconnecto.py:147-179 | the validated roles map to "Estudiantes" and "Docentes", the validated document types to "1" and "2" |
| AppConnecto.Username | app/appconnecto.py:369 | a record without an identification number is reported as "unknown" |
| AppConnecto.RouteOfClassifies | app/appconnecto.py:352-375 | created exactly on "created", already existing exactly on "already_exists", otherwise an error with the user's name and the result's error, "Error desconocido", or the exception text |
| AppConnecto.RoutesPartition | app/appconnecto.py:352-375 | the three lists' lengths add up to the number of results |
| AppConnecto.CreatedOfMembers | app/appconnecto.py:352-356 | a name is in `created` exactly when some result routes it there |
| AppConnecto.AlreadyExistsOfMembers | app/appconnecto.py:357-358 | a name is in `already_exists` exactly when some result routes it there |
| AppConnecto.ErrorsOfMembers | app/appconnecto.py:359-372 | an entry is in `errors` exactly when some result routes it there |
| AppConnecto.CreateUsersPartition | app/appconnecto.py:324-384 | the three lists' lengths add up to `total`, which is the number of users; a name is in `created` exactly when a user with that name got "created", in `already_exists` exactly when one got "already_exists", and an entry is in `errors` exactly when a user with that name got any other result or raised, with its error text, "Error desconocido" or the exception's text |
| AppConnecto.CreateUsers | app/appconnecto.py:324-384 | the loop returns `CreateUsersSpec`, pausing once per user |
| AppConnecto.LoginFailed | app/appconnecto.py:435-443 | nothing created, one "login" error, `total` the number of users |
| AppConnecto.CreateUsersInAppConnecto | app/appconnecto.py:413-447 | a failed login gives `LoginFailed` and attempts no creation; otherwise the summary of the users' results |
| EmailSender.SendWelcomeEmail | app/email_sender.py:68-107 | the result names the personal address and "given names family names" |
| EmailSender.SendWelcomeEmailOutcome | app/email_sender.py:90-107 | sent exactly when the send returns true; a false send fails with "Error desconocido", an exception with its text |
| EmailSender.ResultsPartition | app/email_sender.py:128-145 | the lengths of `sent` and `failed` add up to the number of results |
| EmailSender.SentOfMembers | app/email_sender.py:141-142 | an entry is in `sent` exactly when some result was a successful send with that address and name |
| EmailSender.FailedOfMembers | app/email_sender.py:143-144 | an entry is in `failed` exactly when some result was a failure with that address, name and error |
| EmailSender.AllSent | app/email_sender.py:128-138 | with every result sent, `sent` holds each address and name in order and `failed` is empty |
| EmailSender.SendWelcomeEmailsPartition | app/email_sender.py:128-147 | `total` is the number of users and the two lists' lengths add up to it; for any outcomes, an entry is in `sent` exactly when a user with that address and name was sent to, and in `failed` exactly when a user's send returned false or raised, with "Error desconocido" or the exception's text; when every send succeeds, `sent` lists each user in order and `failed` is empty |
| EmailSender.SendWelcomeEmails | app/email_sender.py:109-147 | the loop returns `SendWelcomeEmailsSpec` |
| PasswordGenerator.NoAmbiguousInPool | app/password_generator.py:40-46 | none of 0, O, l, 1 and I is in the pool |
| PasswordGenerator.ValidPasswordUnambiguous | app/password_generator.py:40-46 | a valid password contains none of the confusable characters |
| PasswordGenerator.DrawInPool | app/password_generator.py:50 | every drawn character is in the pool |
| PasswordGenerator.FirstAccepted | app/password_generator.py:49-59 | the first accepted round, with every earlier one rejected; or none when every round is rejected |
| PasswordGenerator.FirstAcceptableIsFirst | app/password_generator.py:49-59 | the loop returns the first candidate with every kind of character, which is a valid password, or no password when every round is rejected |
| PasswordGenerator.GenerateSpecCorrect | app/password_generator.py:12-59 | a length below 8 is refused and any other never is; a returned password is valid: that length, pool characters only, and every kind of character |
| PasswordGenerator.GenerateSecurePassword | app/password_generator.py:12-59 | the rejection loop computes `GenerateSpec`, and says where the next unused draw is |
| PasswordGenerator.PickCharacters | app/password_generator.py:50 | the character loop computes `Draw` |
| PasswordGenerator.AddPassword | app/password_generator.py:80-81 | adding a new valid password keeps the batch distinct and valid |
| PasswordGenerator.GeneratePasswords | app/password_generator.py:62-83 | `count` pairwise-distinct valid passwords, none for a non-positive count, and the length error exactly when passwords are asked for with a length below 8 |
| MainFlow.YesNoDisjoint | main.py:82-88 | an answer is yes exactly when its normal form is a yes answer, no exactly when it is a no answer, never both |
| MainFlow.ClassifyPadded | main.py:83 | surrounding whitespace never changes how an answer is read |
| MainFlow.AccentedYes | main.py:83-85 | " sí " is read as yes |
| MainFlow.OtherAnswer | main.py:86-88 | "ok" is not understood, so the prompt is repeated |
| MainFlow.IsYesClassify | main.py:352-363 | the headless and e-mail prompts' yes is the confirmation's yes |
| MainFlow.Decision | main.py:80-88 | a decision exists exactly when some answer is understood; it is the reading of the first understood answer |
| MainFlow.GetUserConfirmation | main.py:80-88 | returns `Decision`, having read exactly the answers up to the first understood one |
| MainFlow.OfficeCreatedMembers | main.py:110 | a record is kept exactly when some result is that record with its account created and a password |
| MainFlow.OfficeCreatedHavePasswords | main.py:110 | every kept record has its account created and a password |
| MainFlow.OfficeCreatedOnlyNew | main.py:107-110 | after provisioning, only new records are kept: existing ones are not created and there is no metadata item |
| MainFlow.KeptIsNew | main.py:107-110 | a kept result is one of the provisioned records, all of which are new |
| MainFlow.UsersForEmailKeepsAll | main.py:359 | with every kept record holding a password, the e-mail filter keeps them all |
| MainFlow.PortalPartition | main.py:149-163 | the three lists together are the users, as a multiset |
| MainFlow.PortalSpecPartition | main.py:138-163 | a failed login puts every user in `failed`; otherwise each user lands in exactly one list |
| MainFlow.AllCreated | main.py:154-156 | with every creation reporting "created", every user is in `created`, in order |
| MainFlow.ProcessPortalUsers | main.py:115-172 | the login check and the loop compute `PortalSpec` |
| MainFlow.Run | main.py:297-370 | stops with no new users, on a no, or when no account was created; otherwise the portal phase and the e-mails get exactly the new records whose account was created |

## Left out

- Network, identity and browser services are left out. The HTTP requests, the MSAL token, the Playwright steps and the screenshots are not modelled. Their replies (status codes, bodies, pages, portal results, send results) are parameters.
- I/O is left out: logging, printing, `input()`, the JSON and PDF/XLSX reports (app/report_generator.py), and reading the settings (app/config.py). Group names and the password length are constants.
- Waits are counted, not timed: the retry loop reports how many waits it makes, and the portal loop how many pauses. The 15-second propagation wait is not modelled.
- Welcome mails are not rendered with Jinja; only the outcome of each send is modelled.
- Letters and case mapping cover ASCII plus the Spanish accented letters only. Full Unicode NFD, the 'Mn' category and Unicode case mapping are out of reach.
- Text.IsDigit accepts the ASCII digits '0' to '9' only. Python's `isdigit` and `isalnum` also accept other Unicode digits, such as '²' or '٣'. `validate_identification_id` accepts such a number, and the address normaliser keeps such characters; the model does neither.
- Pydantic's `EmailStr` check and the min/max length constraints of the schema fields are not modelled.
- `_clean_id` is not modelled: it goes through a float conversion. Nor is the pandas reading and `dropna` cleaning of the sheet; `_validate_file`, `_read_excel` and `process` are file I/O.
- `list_users` and `verify_user_in_group` in app/graph_api.py are not modelled: the pipeline does not call them. `get_token` is a token exchange. Within `create_users` its refusal is a reply (`TokenRefused`), and a refusal in a later call is covered by `CreatedThenRaised`.
- How `create_user` in app/appconnecto.py drives the form is not modelled (browser steps). Its result (a status with an optional error, or an exception) is a parameter.
- PasswordGenerator.GenerateSecurePassword: the source loops until a candidate has every kind of character. The model is given a budget of rounds, and `OutOfRounds` is an outcome of the model only. Randomness is a draw function `choice` that the caller supplies.
- PasswordGenerator.GeneratePasswords: the calls budget stands in for the unbounded loop, and `BatchOutOfRounds` is an outcome of the model only. Passwords are returned in the order they were generated, not in Python's set order.
- MainFlow.Run: the confirmation answers running out (`Unanswered`) is an outcome of the model only; the source waits for input forever.
- MainFlow.Run: the headless prompt is not modelled because it only chooses whether the browser window is visible. Exceptions raised during the run (the final `except`) are not modelled either.
- MainFlow.Run: the portal phase is modelled as if it could start. As written, main.py:134 passes `debug_screenshots=False` to `AppConnectoClient`, whose constructor (app/appconnecto.py:26) declares no such parameter. That call is not part of this model.
- EmailGenerator.Generator.Remember: the model records the lower-cased address, the corrected form of app/email_generator.py:135 (see "## Findings"). With a domain that is not lower case, the source hands out the same address twice in one batch. Over a lower-case domain, such as the default "ecr.edu.co", the two agree (`RecordAgreesOverLowerCaseDomain`).
- EmailGenerator.Generator.GenerateEmail: on success the batch grows by the lower-cased address, the corrected recording of app/email_generator.py:135; as written it grows by the address in the domain's case.
- UserProcessor.ResolveAllFresh: freshness of each new address up to case rests on the corrected recording; with a domain that is not lower case the source can repeat an address.
- UserProcessor.IdenticalCandidatesDiffer: two identical candidates get different addresses under the corrected recording; as written, with a domain that is not lower case, they get the same one (`EmailGenerator.AsWrittenRepeatsAddress`).
- Schemas.UserSchema.ModelDump requires that the name parts have been extracted, as `_process_rows` always does before it dumps a record.
- GraphApi.Address: an absent `displayName` is taken as "". A `mail` or `userPrincipalName` that is null is taken as absent.
- AppConnecto.RouteOf: an `error` key that is present but null is modelled as absent, so it is reported as "Error desconocido".
- UserProcessor: `create_new_users` and `process_users` only delegate to `UserCreator.CreateUsers` and to the modelled loop, and are not modelled separately.

## Findings

| source | as written | input that shows it | evidently intended | confidence | as-written member | corrected member |
|---|---|---|---|---|---|---|
| app/email_generator.py:135 | the allocated address is added to the batch set in the domain's own case, while the availability check at line 300 looks up the lower-cased address | domain "ECR.EDU.CO" and the same new person, Laura Becerra, twice in one file: both get "laura.becerra@ECR.EDU.CO" | record the lower-cased address, so that the batch check sees it | high, not executed | EmailGenerator.AsWrittenRepeatsAddress | EmailGenerator.AllocateNeverRepeats |
