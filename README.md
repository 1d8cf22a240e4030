# paypal-common activity engine in Dafny

A model of the activity-execution engine of `paypal-common` and two small
utilities it ships with.

- **Statuses and categories.** `ActivityStatus` (eight outcomes ranked 0 to 50)
  and `ActivityResultMessageCategory` (four severities ranked 0 to 30) are
  datatypes with their rank tables.
- **Results.** `ActivityResult` is a class holding a status and an
  insertion-ordered list of categorised messages. Its mutators append, insert
  at a position (with the out-of-bounds case as an outcome), and clear. Its
  three `getMessages*` loops are proved against one filter function, `Select`.
- **Context.** `ActivityContext` is a class over a map from identity-compared
  `ActivityContextKey` objects to nullable values. The value-level map
  operations (`Put` with or without overwrite, `Remove`, `Lookup`, the
  exact-class typed lookup) carry the lemmas. The mutators `addContext` and
  `removeContext` are class methods proved to apply `Put` and `Remove` to the
  map. The plain reads (`get`, `get` with a type, `contextExists`,
  `contextExistsAndNotNull`) change nothing, so they are modelled only as
  functions over the map. The two reads that record a missing key on a
  caller's result are class methods; they record an ERROR message.
- **Activities.** `Activity` is a class with a class tag standing for
  `getClass()`, an abstract `perform` step standing for `performActivity`,
  its own result and an ordered child list. Running the children is specified
  by a fold, `RunChildren`, over the shared context and the state of every
  child result. The fold turns a thrown exception into UNEXPECTED_SYSTEM_ERROR
  plus two messages and carries on with the next child. The roll-up of the
  children's statuses is a max-fold, with SUCCESS when there are no children.
- **StringUtils.** `isAlphaNumeric`, Java's `split` on `/`, and the loops of
  `getFilePathTail` and `constructFilePath`. Path normalisation is a
  parameter.
- **FileStatusManager.** The `.common-stat` marker-file rule. It works over an
  abstract directory (path to is-file flag and modification time), and the
  clock is a parameter.

Files: `options.dfy`, `activity_status.dfy`, `message_category.dfy`,
`result_message.dfy`, `context_key.dfy`, `runtime_class.dfy`,
`activity_result.dfy`, `activity_context.dfy`, `activity.dfy`,
`string_utils.dfy`, `file_status.dfy`.

## Model

| member | source | states |
|---|---|---|
| ActivityStatuses.ActivityStatus.Rank | src/main/java/com/paypal/common/activities/ActivityStatus.java:11-28 | a status's rank lies in 0..50; it is 0 exactly for NOT_RUN and 50 exactly for UNEXPECTED_SYSTEM_ERROR |
| ActivityStatuses.DeclaredRanks | src/main/java/com/paypal/common/activities/ActivityStatus.java:11-18 | there are eight statuses, each at its declaration position, with ranks 0, 10, 11, 12, 13, 20, 40, 50 in that order |
| ActivityStatuses.RankFollowsDeclarationOrder | src/main/java/com/paypal/common/activities/ActivityStatus.java:11-18 | one status is declared before another iff its rank is smaller; equal ranks only for the same status |
| ActivityStatuses.Extremes | src/main/java/com/paypal/common/activities/ActivityStatus.java:11-18 | NOT_RUN has the least rank, UNEXPECTED_SYSTEM_ERROR the greatest, and SUCCESS < VALIDATION_ERROR < UNEXPECTED_SYSTEM_ERROR |
| ActivityStatuses.MoreSevere | src/main/java/com/paypal/common/activities/Activity.java:169-171 | one roll-up step keeps the current status or takes the candidate, and the result ranks at least as high as both |
| ActivityStatuses.MoreSevereCommutes | src/main/java/com/paypal/common/activities/Activity.java:169-171 | the roll-up step gives the same status whichever of the two comes first |
| MessageCategories.Category.Rank | src/main/java/com/paypal/common/activities/ActivityResultMessageCategory.java:10-23 | a category's rank lies in 0..30; it is 0 exactly for DEFAULT and 30 exactly for ERROR |
| MessageCategories.DeclaredRanks | src/main/java/com/paypal/common/activities/ActivityResultMessageCategory.java:10-13 | four categories at their declaration positions with ranks 0, 10, 20, 30 |
| MessageCategories.RankFollowsDeclarationOrder | src/main/java/com/paypal/common/activities/ActivityResultMessageCategory.java:10-13 | declaration order agrees with rank order, and distinct categories have distinct ranks |
| MessageCategories.AtLeastBounds | src/main/java/com/paypal/common/activities/ActivityResultMessageCategory.java:10-13 | every category is at least DEFAULT; only ERROR is at least ERROR; every category is at least itself |
| ResultMessages.ActivityResultMessage.State | src/main/java/com/paypal/common/activities/ActivityResultMessage.java:24-34 | the getters read the current category and text and change nothing |
| ResultMessages.ActivityResultMessage.constructor | src/main/java/com/paypal/common/activities/ActivityResultMessage.java:14-17 | the message holds exactly the given category and text |
| ResultMessages.ActivityResultMessage.WithDefaultCategory | src/main/java/com/paypal/common/activities/ActivityResultMessage.java:19-22 | the message holds the given text with category DEFAULT |
| ResultMessages.ActivityResultMessage.SetCategory | src/main/java/com/paypal/common/activities/ActivityResultMessage.java:28-30 | only the category changes; the text is kept |
| ResultMessages.ActivityResultMessage.SetMessage | src/main/java/com/paypal/common/activities/ActivityResultMessage.java:36-38 | only the text changes; the category is kept |
| ContextKeys.ActivityContextKey.constructor | src/main/java/com/paypal/common/activities/ActivityContextKey.java:15-21 | the key's description is the one given, and it is immutable |
| ContextKeys.SameDescriptionDistinctKeys | src/main/java/com/paypal/common/activities/ActivityContextKey.java:12-22 | two keys built from the same description are different keys |
| RuntimeClasses.SubclassIsDeeper | src/main/java/com/paypal/common/activities/ActivityContext.java:110-113 | a strict subclass lies deeper in the class hierarchy than its ancestor |
| RuntimeClasses.SubclassIsDifferent | src/main/java/com/paypal/common/activities/ActivityContext.java:110-113 | a strict subclass is never the same class as its ancestor |
| Results.Select | src/main/java/com/paypal/common/activities/ActivityResult.java:36-73 | a filtered text list is never longer than the message list |
| Results.SelectIsOrderedFilter | src/main/java/com/paypal/common/activities/ActivityResult.java:49-73 | the filtered texts are, in order, the texts at increasing positions, and a position is listed iff its message passes the filter |
| Results.SelectAllIsEveryText | src/main/java/com/paypal/common/activities/ActivityResult.java:36-42 | the unfiltered list has one text per message, each the text at the same position |
| Results.MinDefaultSelectsAll | src/main/java/com/paypal/common/activities/ActivityResult.java:65-73 | filtering by minimum category DEFAULT keeps every text |
| Results.SelectAppend | src/main/java/com/paypal/common/activities/ActivityResult.java:79-89 | appending messages appends their filtered texts and leaves the earlier filtered texts unchanged |
| Results.InsertThenSelect | src/main/java/com/paypal/common/activities/ActivityResult.java:95-105 | inserting a message at a position puts its text, when it passes the filter, between the texts of the messages before and after it |
| Results.Tagged | src/main/java/com/paypal/common/activities/ActivityResult.java:111-134 | a list of texts becomes, element for element and in order, messages of one category |
| Results.TaggedSelectsBack | src/main/java/com/paypal/common/activities/ActivityResult.java:130-134 | texts added under one category are read back in order by filtering on that category |
| Results.Contents | src/main/java/com/paypal/common/activities/ActivityResult.java:121-123 | the messages appended by addCategorizedMessages are the current values of the given messages, in order |
| Results.ActivityResult.constructor | src/main/java/com/paypal/common/activities/ActivityResult.java:19-22 | a fresh result has status NOT_RUN and no messages |
| Results.ActivityResult.SetStatus | src/main/java/com/paypal/common/activities/ActivityResult.java:28-30 | the status is replaced unconditionally; the messages are kept |
| Results.ActivityResult.GetMessages | src/main/java/com/paypal/common/activities/ActivityResult.java:36-42 | returns every message's text in insertion order, one per message |
| Results.ActivityResult.GetMessagesOf | src/main/java/com/paypal/common/activities/ActivityResult.java:49-57 | returns in order exactly the texts whose category equals the one given |
| Results.ActivityResult.GetMessagesMinCategory | src/main/java/com/paypal/common/activities/ActivityResult.java:65-73 | returns in order exactly the texts whose category rank is at least the minimum's |
| Results.ActivityResult.AddMessage | src/main/java/com/paypal/common/activities/ActivityResult.java:79-81 | appends one DEFAULT message at the end; the status and earlier messages are kept |
| Results.ActivityResult.AddMessageOf | src/main/java/com/paypal/common/activities/ActivityResult.java:87-89 | appends one message of the given category at the end |
| Results.ActivityResult.AddMessageAt | src/main/java/com/paypal/common/activities/ActivityResult.java:95-97 | with 0 <= atIndex <= size, a DEFAULT message lands at atIndex and later ones shift right; otherwise an index-out-of-bounds outcome and no change |
| Results.ActivityResult.AddMessageOfAt | src/main/java/com/paypal/common/activities/ActivityResult.java:103-105 | the same positional insert with the given category |
| Results.ActivityResult.AddMessages | src/main/java/com/paypal/common/activities/ActivityResult.java:111-115 | appends one DEFAULT message per text, in list order |
| Results.ActivityResult.AddMessagesOf | src/main/java/com/paypal/common/activities/ActivityResult.java:130-134 | appends one message of the given category per text, in list order |
| Results.ActivityResult.AddCategorizedMessages | src/main/java/com/paypal/common/activities/ActivityResult.java:121-123 | appends the given messages' categories and texts in list order |
| Results.ActivityResult.ClearMessages | src/main/java/com/paypal/common/activities/ActivityResult.java:139-141 | empties the message list and keeps the status |
| Contexts.GetTyped | src/main/java/com/paypal/common/activities/ActivityContext.java:106-115 | returns the value when it is null or its runtime class equals the requested one exactly; otherwise a type mismatch naming both classes |
| Contexts.SubclassInstanceRefused | src/main/java/com/paypal/common/activities/ActivityContext.java:110-113 | a value whose class is a strict subclass of the requested class is refused |
| Contexts.Lookup | src/main/java/com/paypal/common/activities/ActivityContext.java:80-83 | null exactly when the key is absent or mapped to null; otherwise the stored value |
| Contexts.Exists | src/main/java/com/paypal/common/activities/ActivityContext.java:123-125 | true exactly for a present key, one mapped to null included; an absent key looks up as null |
| Contexts.ExistsAndNotNull | src/main/java/com/paypal/common/activities/ActivityContext.java:133-135 | true exactly when the lookup is not null, and then the key is present |
| Contexts.Put | src/main/java/com/paypal/common/activities/ActivityContext.java:54-63 | the key is present afterwards and other keys keep their values; the key takes the new value unless not overwriting and it already held a non-null value |
| Contexts.Remove | src/main/java/com/paypal/common/activities/ActivityContext.java:70-72 | the key is gone and every other entry is kept |
| Contexts.OverwritingPut | src/main/java/com/paypal/common/activities/ActivityContext.java:43-58 | an overwriting put maps the key to the value and leaves every other key as it was |
| Contexts.NonOverwritingPut | src/main/java/com/paypal/common/activities/ActivityContext.java:54-63 | a non-overwriting put changes nothing when the key holds a non-null value, and otherwise acts as an overwriting put |
| Contexts.FirstNonOverwritingPutWins | src/main/java/com/paypal/common/activities/ActivityContext.java:54-63 | after two non-overwriting puts of a key, the first non-null value is kept |
| Contexts.RemoveOnlyThatKey | src/main/java/com/paypal/common/activities/ActivityContext.java:70-72 | remove drops only that key, and does nothing when the key is absent |
| Contexts.KeysAreIdentities | src/main/java/com/paypal/common/activities/ActivityContextKey.java:12-22 | a put under one key leaves a different key with the same description untouched |
| Contexts.ActivityContext.constructor | src/main/java/com/paypal/common/activities/ActivityContext.java:24-26 | a fresh context is empty |
| Contexts.ActivityContext.AddContext | src/main/java/com/paypal/common/activities/ActivityContext.java:43-45 | the two-argument put is the overwriting put |
| Contexts.ActivityContext.AddContextWith | src/main/java/com/paypal/common/activities/ActivityContext.java:54-63 | the map becomes the put with the given overwrite flag |
| Contexts.ActivityContext.RemoveContext | src/main/java/com/paypal/common/activities/ActivityContext.java:70-72 | the map becomes the map without the key |
| Contexts.ActivityContext.ContextExistsAndNotNullRecording | src/main/java/com/paypal/common/activities/ActivityContext.java:143-151 | answers present-and-not-null; when not, appends exactly one ERROR message "'<description>' does not exist in the current context." |
| Contexts.ActivityContext.GetRecording | src/main/java/com/paypal/common/activities/ActivityContext.java:91-94 | returns the stored value or null, and appends the ERROR message exactly when the result is null |
| Activities.Contained | src/main/java/com/paypal/common/activities/Activity.java:139-143 | a caught throw leaves the child's result UNEXPECTED_SYSTEM_ERROR with its earlier messages kept, then a DEFAULT message with the fixed prefix and the parent's simple class name, then a DEFAULT message with the exception's text |
| Activities.StepChild | src/main/java/com/paypal/common/activities/Activity.java:134-144 | one child performed: the tracked results stay the same set, and every result other than the child's keeps its state |
| Activities.RunChildren | src/main/java/com/paypal/common/activities/Activity.java:133-145 | performing the children one after another on the shared state keeps the set of tracked results |
| Activities.RunChildrenSplits | src/main/java/com/paypal/common/activities/Activity.java:133-146 | running a child list is running its first part and then the rest, so children run one after another in list order |
| Activities.RunChildrenSnoc | src/main/java/com/paypal/common/activities/Activity.java:133-136 | running the first i + 1 children is running the first i and then performing child i |
| Activities.RunChildrenLeavesOthers | src/main/java/com/paypal/common/activities/Activity.java:132-146 | running children leaves every result that is not a child's untouched |
| Activities.ChildFinalResult | src/main/java/com/paypal/common/activities/Activity.java:134-144 | with distinct child results, each child's final result is what its own perform returned, or on a throw that result with status UNEXPECTED_SYSTEM_ERROR and two DEFAULT messages: the parent's class name after the fixed prefix, then the exception message |
| Activities.MostSevere | src/main/java/com/paypal/common/activities/Activity.java:166-173 | the fold from NOT_RUN gives NOT_RUN for no statuses, and ranks at least every status |
| Activities.RollUp | src/main/java/com/paypal/common/activities/Activity.java:162-174 | SUCCESS for no statuses; otherwise ranks at least every status |
| Activities.ChildStatuses | src/main/java/com/paypal/common/activities/Activity.java:168-169 | one status per child, each the status of that child's result, in list order |
| Activities.ChildrenRollUp | src/main/java/com/paypal/common/activities/Activity.java:162-174 | the roll-up of the children's statuses is SUCCESS for no children, otherwise some child's status, ranking at least every child's |
| Activities.MostSevereIsMaximum | src/main/java/com/paypal/common/activities/Activity.java:166-173 | over a non-empty list the fold yields one of the statuses, and no status outranks it |
| Activities.RollUpSpec | src/main/java/com/paypal/common/activities/Activity.java:162-174 | the roll-up is SUCCESS for no children, otherwise one of their statuses with the greatest rank |
| Activities.Activity.constructor | src/main/java/com/paypal/common/activities/Activity.java:20-21 | a fresh activity owns a fresh result with status NOT_RUN and no messages, and has no children |
| Activities.Activity.AddSubActivity | src/main/java/com/paypal/common/activities/Activity.java:117-125 | a child of the parent's own class is refused with false and no change; any other is appended at the end with true |
| Activities.Activity.PerformActivity | src/main/java/com/paypal/common/activities/Activity.java:155 | the abstract step: the context and the activity's own result become what perform returns, and a throw is reported with its message |
| Activities.Activity.OwnResultNotShared | src/main/java/com/paypal/common/activities/Activity.java:117-125 | no child of a well-formed activity holds the activity's own result, since a child differs in class and owns its result |
| Activities.Activity.PerformSubActivities | src/main/java/com/paypal/common/activities/Activity.java:132-146 | the context and the child results end as RunChildren over the children in order; the parent's own result and the child list are unchanged; nothing is thrown |
| Activities.Activity.PerformSubActivity | src/main/java/com/paypal/common/activities/Activity.java:134-144 | one child runs; on a throw its status becomes UNEXPECTED_SYSTEM_ERROR and the two messages are appended |
| Activities.Activity.GetOverallSubActivityStatus | src/main/java/com/paypal/common/activities/Activity.java:162-174 | SUCCESS with no children; otherwise a status some child has, ranking at least every child's |
| Activities.Activity.AddActivityResultMessage | src/main/java/com/paypal/common/activities/Activity.java:53-55 | the activity's own result gains one DEFAULT message at the end |
| Activities.Activity.AddActivityResultMessageOf | src/main/java/com/paypal/common/activities/Activity.java:62-64 | the own result gains one message of the given category at the end |
| Activities.Activity.AddActivityResultMessageAt | src/main/java/com/paypal/common/activities/Activity.java:71-73 | the positional DEFAULT insert on the own result, with its out-of-bounds outcome |
| Activities.Activity.AddActivityResultMessageOfAt | src/main/java/com/paypal/common/activities/Activity.java:80-82 | the positional insert with a category on the own result |
| Activities.Activity.SetActivityResultStatus | src/main/java/com/paypal/common/activities/Activity.java:89-91 | the own result's status is replaced and its messages kept |
| Activities.Activity.AddActivityResultMessages | src/main/java/com/paypal/common/activities/Activity.java:98-100 | the own result gains one DEFAULT message per text, in order |
| Activities.Activity.AddActivityResultMessagesOf | src/main/java/com/paypal/common/activities/Activity.java:107-109 | the own result gains one message of the given category per text, in order |
| StringUtilities.AllPatternChars | src/main/java/com/paypal/common/utils/StringUtils.java:58 | true iff every character is an ASCII letter, a digit, `-` or `_` |
| StringUtilities.IsAlphaNumeric | src/main/java/com/paypal/common/utils/StringUtils.java:56-59 | null passes; the empty string fails; otherwise true iff every character is an ASCII letter, a digit, `-` or `_` |
| StringUtilities.Segments | src/main/java/com/paypal/common/utils/StringUtils.java:37 | splitting gives at least one piece, and no piece holds a separator |
| StringUtilities.JoinSegments | src/main/java/com/paypal/common/utils/StringUtils.java:37 | joining the pieces of a string with the separator gives the string back |
| StringUtilities.SegmentsJoin | src/main/java/com/paypal/common/utils/StringUtils.java:37 | splitting a join of separator-free pieces gives the pieces back |
| StringUtilities.DropTrailingEmpty | src/main/java/com/paypal/common/utils/StringUtils.java:37 | the result is a prefix of the pieces, ends in a non-empty piece, and only empty pieces were dropped |
| StringUtilities.Split | src/main/java/com/paypal/common/utils/StringUtils.java:37 | no piece holds a separator, and for a non-empty string the last piece is non-empty |
| StringUtilities.Tail | src/main/java/com/paypal/common/utils/StringUtils.java:42-44 | the last n segments, none when n is not positive |
| StringUtilities.TailSplitsBack | src/main/java/com/paypal/common/utils/StringUtils.java:41-46 | a tail built from segments splits back into an empty first piece followed by exactly those segments |
| StringUtilities.TerminatedSplitsBack | src/main/java/com/paypal/common/utils/StringUtils.java:21-26 | a constructed path splits into its parts followed by one empty piece |
| StringUtilities.ConstructFilePath | src/main/java/com/paypal/common/utils/StringUtils.java:21-27 | the path is every part in order, each followed by one separator, then normalised; a null from the normaliser is returned as null |
| StringUtilities.GetFilePathTail | src/main/java/com/paypal/common/utils/StringUtils.java:35-47 | a blank path, or one with at most n segments, is returned unchanged; otherwise the last n segments, each preceded by the separator, normalised, with a null from the normaliser returned as null |
| FileStatuses.StatFileOf | src/main/java/com/paypal/common/utils/FileStatusManager.java:105-108 | the marker of `dir/name` is the sibling `dir/name.common-stat`, never the target itself |
| FileStatuses.MarkersAreDistinct | src/main/java/com/paypal/common/utils/FileStatusManager.java:105-108 | different targets have different markers |
| FileStatuses.LastModified | src/main/java/com/paypal/common/utils/FileStatusManager.java:115-117 | a missing entry has modification time 0 |
| FileStatuses.GetFileStatus | src/main/java/com/paypal/common/utils/FileStatusManager.java:99-123 | eligible when the marker is not a regular file; otherwise eligible iff the target is strictly newer than the marker, so equal times give not eligible |
| FileStatuses.Touched | src/main/java/com/paypal/common/utils/FileStatusManager.java:65-70 | the entry is stamped with the time and keeps its kind, or is created as a file; every other entry is kept |
| FileStatuses.CreateAllowed | src/main/java/com/paypal/common/utils/FileStatusManager.java:50-61 | false for a null target, for a target that does not exist and for one that is not a regular file; true for an existing regular file |
| FileStatuses.AfterCreate | src/main/java/com/paypal/common/utils/FileStatusManager.java:48-76 | no change for a null, missing or non-file target; otherwise the marker carries the time and the target and every other entry are unchanged |
| FileStatuses.AfterDelete | src/main/java/com/paypal/common/utils/FileStatusManager.java:84-89 | the marker is gone and every other entry is unchanged |
| FileStatuses.CreateMakesNotEligible | src/main/java/com/paypal/common/utils/FileStatusManager.java:9-22 | after creating the marker at a time no earlier than the target's, the target is not eligible |
| FileStatuses.DirectoryMarkerKeepsEligible | src/main/java/com/paypal/common/utils/FileStatusManager.java:110-113 | when a directory stands at the marker path, the target stays eligible even after createStatFile |
| FileStatuses.DeleteMakesEligible | src/main/java/com/paypal/common/utils/FileStatusManager.java:84-89 | after deleteStatFile the target is eligible |
| FileStatuses.ModificationMakesEligible | src/main/java/com/paypal/common/utils/FileStatusManager.java:117-119 | modifying the target after its marker makes it eligible again |
| FileStatuses.CreateIsIdempotent | src/main/java/com/paypal/common/utils/FileStatusManager.java:65-66 | creating the marker twice at the same time is the same as creating it once |
| FileStatuses.FileSystem.CreateStatFile | src/main/java/com/paypal/common/utils/FileStatusManager.java:48-76 | returns true iff the target is an existing regular file, and the entries become the directory after create |
| FileStatuses.FileSystem.DeleteStatFile | src/main/java/com/paypal/common/utils/FileStatusManager.java:84-89 | returns true, and the entries become the directory without the marker |

## Left out

- Logging (log4j) and the perf4j `StopWatch` in `Activity` are diagnostic only and are not modelled.
- Concrete `performActivity` bodies are abstract in the source; a child's `perform` is a function from the context and its own result to a returned or thrown outcome. A concrete activity that runs its own children, or writes to another activity's result, is not captured.
- `getRequiredContextKeys` is abstract and has no behaviour to model.
- `getSubActivities` and `getActivityResult` hand out the internal list and result; a caller mutating them directly, and reassignment of the protected `activityResult` field, are not modelled (the result is a `const` owned by its activity).
- Plain getters (`getStatus`, `getCategory`, `getMessage`, `getDescription`) are field reads of the classes.
- `addCategorizedMessages` stores the caller's message objects themselves; the model stores their values, so a later `setCategory`/`setMessage` on such an object does not show in the result.
- The `ActivityContext(HashMap)` constructor, which aliases a caller-owned map, and `Serializable` are not modelled.
- Null keys, null strings, null lists and null list elements (which Java would store, print as `null` or reject with a NullPointerException) are not modelled; context values do model null.
- Activities.Activity.PerformSubActivities: only exceptions are contained, as in the source; the model does not distinguish `Error`s, which the source lets escape, and a null exception message is a plain string here.
- Contexts.GetTyped: the ActivityException's text (which prints the key object and both class names) is reduced to the key and the two class tags.
- Runtime classes are tags with a name and a superclass; `getName` and `getSimpleName` are both the tag's name.
- StringUtilities.ConstructFilePath and StringUtilities.GetFilePathTail: `FilenameUtils.normalizeNoEndSeparator` is a parameter returning None for its `null` (as for a `..` with no parent left), so which paths it normalises to null is not modelled; the platform separator is fixed to `/`.
- StringUtilities.GetFilePathTail: numberOfSegments is an unbounded integer, so the 32-bit overflow of `segments.length - numberOfSegments` for a value near `Integer.MIN_VALUE` (which makes the source index out of bounds) is not modelled.
- Java's `split` is modelled for the literal one-character separator `/` only, not for general regular expressions.
- FileStatusManager: real files, `FilenameUtils.concat`, the system clock, IOExceptions and failures of `setLastModified`, `createNewFile` or `delete` are not modelled; those operations always succeed here, and the clock is the `now` parameter.
- FileStatusManager: a target with no parent directory, and a null target for `getFileStatus` or `deleteStatFile` (which throw), are not modelled; paths are a parent and a name.
- ConnectionManager, PropertyManager, JaxbUtils, FileUtils and the exception classes are not part of this model.
