# MonoDevelop: parsed documents, folding, the document switcher and Objective-C type resolution, in Dafny

This project models three pieces of MonoDevelop and proves properties of the model.

- **NSObjectProjectInfo** (Mac add-in, Objective-C integration). A project's two
  dictionaries hold `NSObjectTypeInfo` records. One is keyed by Objective-C name and
  the other by .NET name. `Update` refills both from the registered records and runs
  `ResolveCliToObjc` on each record. `ResolveCliToObjc` fills a record's missing
  Objective-C names from its .NET names. `ResolveObjcToCli` fills missing .NET
  names from Objective-C names and returns how many stay unresolved. Lookups search
  the project's own dictionary first, then the referenced projects' dictionaries in order.
  - Module `ObjCResolutionSpec` states both passes on values. A record is a
    `TypeView`; the searched dictionaries are an index from name to the first
    record found (`Hit`).
  - Module `ObjCIntegration` holds the classes `NSObjectTypeInfo` and
    `NSObjectProjectInfo`. Their methods update the objects in place and are proved
    equal to those value definitions through `NSObjectTypeInfo.View()`.
- **ParsedDocument** (type system). The document appends errors, comments, tags,
  defines, conditional regions and folds to its lists. `HasErrors` reports whether any
  error is an error rather than a warning. `DefaultParsedDocument` finds the top-level,
  innermost and member definitions at a location (module `ParsedDocuments`).
  `FoldingUtilities` turns conditional regions, type definitions and comments into
  folding regions with labels (modules `Folding` and `CommentFolding`). The shared
  entities are in module `TypeSystem`.
- **DocumentList** (the Ctrl+Tab document switcher). Categories of items are shown in
  columns of 20 items, two columns per category, starting at each category's first
  visible item. The arrow keys move the active item (`NextItem`, `PrevItem`,
  `LeftItem`, `RightItem`); `GetNextCat` and `GetPrevCat` find the next and previous
  non-empty category cyclically. Labels are cut by `Ellipsize` to a width computed
  from the longest title.
  - Module `DocumentSwitching` specifies navigation on values: a `Switcher` is the
    category views plus the active item.
  - The `DocumentList` class's methods are proved to change the objects exactly as
    those functions say.

Where the design documentation of the system and the code differ, the model follows the code:
- The documentation says `ResolveCliToObjc` also fills the record's own Objective-C
  name, and propagates IsModel from it. The code does not.
- The documentation puts the diagnostic for a failed lookup in the .NET to
  Objective-C pass. The code logs it in `TryResolveObjcToCli`, the lookup of the other
  pass.

The code resolves the records in the order of `cliTypes.Values`. The model
(`ResolveRegistered`) walks the registered records instead. Both visit the same
records, and the order cannot matter: a pass writes only its own record, and lookups
read only names, `IsModel` and `IsUserType`, which the pass never writes.

## Model

| member | source | states |
|---|---|---|
| `ObjCIntegration.NSObjectTypeInfo.constructor` | main/src/addins/MonoDevelop.MacDev/ObjCIntegration/NSObjectProjectInfo.cs:158-213 | A record holds exactly the given field values (the fields the two resolve passes read and write) and user-type flag. |
| `ObjCIntegration.TableHits` | main/src/addins/MonoDevelop.MacDev/ObjCIntegration/NSObjectProjectInfo.cs:112-123 | A lookup in one dictionary finds a record for exactly the dictionary's keys. |
| `ObjCIntegration.Lookup` | main/src/addins/MonoDevelop.MacDev/ObjCIntegration/NSObjectProjectInfo.cs:112-123 | TryResolve: true exactly when some searched dictionary holds the key; the record returned is the first found (own dictionary, then each reference in order), and null when nothing is found. |
| `ObjCIntegration.FirstClassLookup` | main/src/addins/MonoDevelop.MacDev/ObjCIntegration/NSObjectProjectInfo.cs:174-186 | The base-class fallback skips non-classes and stops at the first class name that resolves; it finds a record exactly when `FirstClassHit` does, and the same one. |
| `ObjCIntegration.BaseLookupToObjc` | main/src/addins/MonoDevelop.MacDev/ObjCIntegration/NSObjectProjectInfo.cs:162-188 | The base type is looked up only when its Objective-C name is null: by its .NET name first, then by the class fallback. |
| `ObjCIntegration.ResolveSlotsToObjc` | main/src/addins/MonoDevelop.MacDev/ObjCIntegration/NSObjectProjectInfo.cs:190-199 | The outlet loop: exactly the slots with a null Objective-C name that resolve get the found name, and the user-type names found are collected. |
| `ObjCIntegration.ResolveActionsToObjc` | main/src/addins/MonoDevelop.MacDev/ObjCIntegration/NSObjectProjectInfo.cs:201-212 | The nested action-parameter loop does the same for every parameter of every action. |
| `ObjCIntegration.StoreObjcNames` | main/src/addins/MonoDevelop.MacDev/ObjCIntegration/NSObjectProjectInfo.cs:162-212 | The writes of ResolveCliToObjc: base name and BaseIsModel from the found base, user-type references extended, outlets and actions replaced; nothing else changes. |
| `ObjCIntegration.NSObjectProjectInfo.ResolveCliToObjc` | main/src/addins/MonoDevelop.MacDev/ObjCIntegration/NSObjectProjectInfo.cs:158-213 | The record afterwards is `ResolvedToObjc` of the record before, against the project's and references' .NET tables, and those tables' index is unchanged. |
| `ObjCResolutionSpec.FirstClassHitIsFirst` | main/src/addins/MonoDevelop.MacDev/ObjCIntegration/NSObjectProjectInfo.cs:174-186 | The fallback finds nothing exactly when no class on the chain resolves; otherwise it finds the first resolvable class. |
| `ObjCResolutionSpec.SlotRefsToObjcExact` | main/src/addins/MonoDevelop.MacDev/ObjCIntegration/NSObjectProjectInfo.cs:190-199 | A name is added to the user-type references for the outlets exactly when some outlet was filled from a user-type record of that name. |
| `ObjCResolutionSpec.ActionRefsToObjcExact` | main/src/addins/MonoDevelop.MacDev/ObjCIntegration/NSObjectProjectInfo.cs:201-212 | The same, over all action parameters. |
| `ObjCResolutionSpec.BaseHitToObjcInIndex` | main/src/addins/MonoDevelop.MacDev/ObjCIntegration/NSObjectProjectInfo.cs:162-188 | Whatever base record is found is one the searched tables hold. |
| `ObjCResolutionSpec.ResolvedToObjcKeepsKnown` | main/src/addins/MonoDevelop.MacDev/ObjCIntegration/NSObjectProjectInfo.cs:158-213 | The pass only fills nulls. Known Objective-C names stay, the .NET side is untouched, BaseIsModel is only switched on, and no reference is dropped. |
| `ObjCResolutionSpec.ResolvedToObjcUserRefs` | main/src/addins/MonoDevelop.MacDev/ObjCIntegration/NSObjectProjectInfo.cs:168-209 | Every added user-type reference names a user-type record, and each outlet or parameter filled from a user type adds that type's name. |
| `ObjCResolutionSpec.ResolvedToObjcIdempotent` | main/src/addins/MonoDevelop.MacDev/ObjCIntegration/NSObjectProjectInfo.cs:158-213 | Running ResolveCliToObjc twice against the same tables equals running it once. |
| `ObjCIntegration.ResolveSlotsToCli` | main/src/addins/MonoDevelop.MacDev/ObjCIntegration/NSObjectProjectInfo.cs:258-270 | The outlet loop of ResolveObjcToCli. Null .NET names are filled from the found record, or, when forced, from the Objective-C name. The count is `MissedSlots`. |
| `ObjCIntegration.ResolveActionsToCli` | main/src/addins/MonoDevelop.MacDev/ObjCIntegration/NSObjectProjectInfo.cs:273-287 | The nested parameter loop, with its count `MissedParams`. |
| `ObjCIntegration.ResolveOwnToCli` | main/src/addins/MonoDevelop.MacDev/ObjCIntegration/NSObjectProjectInfo.cs:235-244 | The record's own step. A null .NET name takes the found record's name and IsModel. It counts as missed exactly when nothing is found and the pass is not forced. |
| `ObjCIntegration.ResolveRestToCli` | main/src/addins/MonoDevelop.MacDev/ObjCIntegration/NSObjectProjectInfo.cs:247-287 | The base, outlet and parameter steps give exactly the value `ResolvedToCli` describes, with the base counted as missed only when unresolved and not forced. |
| `ObjCIntegration.StoreCliNames` | main/src/addins/MonoDevelop.MacDev/ObjCIntegration/NSObjectProjectInfo.cs:247-287 | The writes of those steps: a null base .NET name takes the found record's name; outlets and actions are replaced; nothing else changes. |
| `ObjCIntegration.NSObjectProjectInfo.ResolveObjcToCli` | main/src/addins/MonoDevelop.MacDev/ObjCIntegration/NSObjectProjectInfo.cs:229-290 | The record afterwards and the returned count are exactly `ResolvedToCli` of the record before. The record's own name is looked up in the tables as they were before the call. |
| `ObjCResolutionSpec.ResolvedToCliBound` | main/src/addins/MonoDevelop.MacDev/ObjCIntegration/NSObjectProjectInfo.cs:229-290 | The count never exceeds the number of names the pass could resolve: own, base, outlets and parameters. |
| `ObjCResolutionSpec.ResolvedToCliForced` | main/src/addins/MonoDevelop.MacDev/ObjCIntegration/NSObjectProjectInfo.cs:229-290 | When forced, the count is 0. Unresolved own and base names stay null. When every found record has a .NET name, no outlet or parameter is left without one. |
| `ObjCResolutionSpec.ResolvedToCliKeepsKnown` | main/src/addins/MonoDevelop.MacDev/ObjCIntegration/NSObjectProjectInfo.cs:229-290 | The pass only fills nulls on the .NET side and leaves the Objective-C side and the user-type references alone. |
| `ObjCResolutionSpec.MissedSlotsBounds` | main/src/addins/MonoDevelop.MacDev/ObjCIntegration/NSObjectProjectInfo.cs:258-270 | Unresolved outlets never exceed the outlets, and none are counted when forced. |
| `ObjCResolutionSpec.MissedParamsBounds` | main/src/addins/MonoDevelop.MacDev/ObjCIntegration/NSObjectProjectInfo.cs:273-287 | The same for action parameters. |
| `ObjCResolutionSpec.MissedSlotsAreNull` | main/src/addins/MonoDevelop.MacDev/ObjCIntegration/NSObjectProjectInfo.cs:258-270 | Unforced, with every found record named, the outlets counted are exactly those still null afterwards. |
| `ObjCResolutionSpec.MissedParamsAreNull` | main/src/addins/MonoDevelop.MacDev/ObjCIntegration/NSObjectProjectInfo.cs:273-287 | The same for action parameters. |
| `ObjCResolutionSpec.ResolvedToCliCountsNulls` | main/src/addins/MonoDevelop.MacDev/ObjCIntegration/NSObjectProjectInfo.cs:218-290 | The number returned, documented as the unresolved types remaining, equals the number of .NET-side fields still null after the pass (unforced, found records named). |
| `ObjCIntegration.NSObjectProjectInfo.constructor` | main/src/addins/MonoDevelop.MacDev/ObjCIntegration/NSObjectProjectInfo.cs:42-54 | A new project info has empty tables and needs updating. |
| `ObjCIntegration.NSObjectProjectInfo.SetNeedsUpdating` | main/src/addins/MonoDevelop.MacDev/ObjCIntegration/NSObjectProjectInfo.cs:56-59 | Marks the tables stale. |
| `ObjCIntegration.ObjcKeys` | main/src/addins/MonoDevelop.MacDev/ObjCIntegration/NSObjectProjectInfo.cs:82-83 | The Objective-C names of the registered records, in order. |
| `ObjCIntegration.CliKeys` | main/src/addins/MonoDevelop.MacDev/ObjCIntegration/NSObjectProjectInfo.cs:82-84 | The .NET names of the registered records, in order. |
| `ObjCIntegration.FiledContents` | main/src/addins/MonoDevelop.MacDev/ObjCIntegration/NSObjectProjectInfo.cs:82-85 | With distinct keys, Add-ing the records in order gives a dictionary that holds each record under its key and nothing else. |
| `ObjCIntegration.FiledNext` | main/src/addins/MonoDevelop.MacDev/ObjCIntegration/NSObjectProjectInfo.cs:82-85 | Each Dictionary.Add finds its key new, so it never throws, and extends the dictionary by that one entry. |
| `ObjCIntegration.NSObjectProjectInfo.FileRegistered` | main/src/addins/MonoDevelop.MacDev/ObjCIntegration/NSObjectProjectInfo.cs:79-85 | Clearing both tables and adding every registered record gives exactly `ObjcTableOf` and `CliTableOf` of the records. |
| `ObjCIntegration.RegisteredTablesExact` | main/src/addins/MonoDevelop.MacDev/ObjCIntegration/NSObjectProjectInfo.cs:79-85 | Those tables hold exactly the registered records, each under its own Objective-C and .NET name. |
| `ObjCIntegration.NSObjectProjectInfo.ResolveRegistered` | main/src/addins/MonoDevelop.MacDev/ObjCIntegration/NSObjectProjectInfo.cs:87-88 | Each registered record becomes `ResolvedToObjc` of itself. The .NET names and the index stay unchanged. |
| `ObjCIntegration.NSObjectProjectInfo.Rebuild` | main/src/addins/MonoDevelop.MacDev/ObjCIntegration/NSObjectProjectInfo.cs:79-88 | The tables are those of the registered records, and each record has been resolved against them. |
| `ObjCIntegration.NSObjectProjectInfo.UpdateIfNeeded` | main/src/addins/MonoDevelop.MacDev/ObjCIntegration/NSObjectProjectInfo.cs:68-91 | Update(). When nothing is marked, nothing changes. Otherwise the tables are rebuilt and every record resolved. Afterwards it is no longer marked. |
| `ObjCIntegration.NSObjectProjectInfo.Update` | main/src/addins/MonoDevelop.MacDev/ObjCIntegration/NSObjectProjectInfo.cs:61-66 | Update(force): a forced update always rebuilds; otherwise as Update(). |
| `ObjCIntegration.NSObjectProjectInfo.GetTypes` | main/src/addins/MonoDevelop.MacDev/ObjCIntegration/NSObjectProjectInfo.cs:93-96 | Every record of the Objective-C table, and, when keyed by name, only those. |
| `ObjCIntegration.NSObjectProjectInfo.GetType` | main/src/addins/MonoDevelop.MacDev/ObjCIntegration/NSObjectProjectInfo.cs:98-104 | Non-null exactly when the name is a key, and then the record filed under it, whose name is that name. |
| `ObjCIntegration.NSObjectProjectInfo.InsertUpdatedType` | main/src/addins/MonoDevelop.MacDev/ObjCIntegration/NSObjectProjectInfo.cs:106-110 | Files the record under both its names, replacing earlier entries, and keeps both tables keyed by the records' own names. |
| `TypeSystem.OfKind` | main/src/core/MonoDevelop.Ide/MonoDevelop.TypeSystem/ParsedDocument.cs:459-465 | The members of one kind (type.Methods, type.Properties), exactly those. |
| `TypeSystem.Methods` | main/src/core/MonoDevelop.Ide/MonoDevelop.TypeSystem/ParsedDocument.cs:459-461 | Exactly the members that are methods. |
| `TypeSystem.Properties` | main/src/core/MonoDevelop.Ide/MonoDevelop.TypeSystem/ParsedDocument.cs:463-465 | Exactly the members that are properties. |
| `TypeSystem.FirstInside` | main/src/core/MonoDevelop.Ide/MonoDevelop.TypeSystem/ParsedDocument.cs:286-289 | FirstOrDefault with IsInside: None exactly when no type contains the location, else the first one that does. |
| `TypeSystem.FirstMemberInside` | main/src/core/MonoDevelop.Ide/MonoDevelop.TypeSystem/ParsedDocument.cs:302-308 | The same for members. |
| `ParsedDocuments.AnyError` | main/src/core/MonoDevelop.Ide/MonoDevelop.TypeSystem/ParsedDocument.cs:183-187 | True exactly when some error has ErrorType Error. |
| `ParsedDocuments.AnyErrorAppend` | main/src/core/MonoDevelop.Ide/MonoDevelop.TypeSystem/ParsedDocument.cs:246-251 | Appending errors: HasErrors of the whole list is HasErrors of either part. |
| `ParsedDocuments.ParsedDocument.constructor` | main/src/core/MonoDevelop.Ide/MonoDevelop.TypeSystem/ParsedDocument.cs:118-121 | A new document has the file name and empty lists. |
| `ParsedDocuments.ParsedDocument.HasErrors` | main/src/core/MonoDevelop.Ide/MonoDevelop.TypeSystem/ParsedDocument.cs:183-187 | True exactly when some recorded error is an error rather than a warning. |
| `ParsedDocuments.ParsedDocument.AddError` | main/src/core/MonoDevelop.Ide/MonoDevelop.TypeSystem/ParsedDocument.cs:216-219 | Appends one error; HasErrors becomes true exactly when it was or the new error is an error. |
| `ParsedDocuments.ParsedDocument.AddComment` | main/src/core/MonoDevelop.Ide/MonoDevelop.TypeSystem/ParsedDocument.cs:221-224 | Appends the comment; no other list changes. |
| `ParsedDocuments.ParsedDocument.AddTag` | main/src/core/MonoDevelop.Ide/MonoDevelop.TypeSystem/ParsedDocument.cs:226-229 | Appends the tag. |
| `ParsedDocuments.ParsedDocument.AddDefine` | main/src/core/MonoDevelop.Ide/MonoDevelop.TypeSystem/ParsedDocument.cs:231-234 | Appends the define. |
| `ParsedDocuments.ParsedDocument.AddConditionalRegion` | main/src/core/MonoDevelop.Ide/MonoDevelop.TypeSystem/ParsedDocument.cs:236-239 | Appends the conditional region. |
| `ParsedDocuments.ParsedDocument.AddFold` | main/src/core/MonoDevelop.Ide/MonoDevelop.TypeSystem/ParsedDocument.cs:241-244 | Appends the fold. |
| `ParsedDocuments.ParsedDocument.AddErrors` | main/src/core/MonoDevelop.Ide/MonoDevelop.TypeSystem/ParsedDocument.cs:246-251 | Adding errors one by one appends them all in order, and HasErrors becomes the old value or'ed with AnyError of the new ones. |
| `ParsedDocuments.ParsedDocument.AddComments` | main/src/core/MonoDevelop.Ide/MonoDevelop.TypeSystem/ParsedDocument.cs:253-256 | AddRange: appends all comments in order. |
| `ParsedDocuments.ParsedDocument.AddTags` | main/src/core/MonoDevelop.Ide/MonoDevelop.TypeSystem/ParsedDocument.cs:258-261 | Appends all tags in order. |
| `ParsedDocuments.ParsedDocument.AddDefines` | main/src/core/MonoDevelop.Ide/MonoDevelop.TypeSystem/ParsedDocument.cs:263-266 | Appends all defines in order. |
| `ParsedDocuments.ParsedDocument.AddFolds` | main/src/core/MonoDevelop.Ide/MonoDevelop.TypeSystem/ParsedDocument.cs:268-271 | Appends all folds in order. |
| `ParsedDocuments.ParsedDocument.AddConditionalRegions` | main/src/core/MonoDevelop.Ide/MonoDevelop.TypeSystem/ParsedDocument.cs:273-276 | Appends all conditional regions in order. |
| `ParsedDocuments.ParsedDocument.GetTopLevelTypeDefinition` | main/src/core/MonoDevelop.Ide/MonoDevelop.TypeSystem/ParsedDocument.cs:286-289 | Null exactly when no top-level type contains the location, else the first that does. |
| `ParsedDocuments.InnermostIn` | main/src/core/MonoDevelop.Ide/MonoDevelop.TypeSystem/ParsedDocument.cs:295-298 | The descent stops at a type (the start, or one containing the location) none of whose nested types contains the location. |
| `ParsedDocuments.Innermost` | main/src/core/MonoDevelop.Ide/MonoDevelop.TypeSystem/ParsedDocument.cs:291-300 | Null exactly when no top-level type contains the location; otherwise a type containing it with no nested type containing it. |
| `ParsedDocuments.InnermostInIsNested` | main/src/core/MonoDevelop.Ide/MonoDevelop.TypeSystem/ParsedDocument.cs:294-298 | The type the descent ends at is nested, at some depth, in the type it starts from. |
| `ParsedDocuments.InnermostIsNested` | main/src/core/MonoDevelop.Ide/MonoDevelop.TypeSystem/ParsedDocument.cs:291-300 | The innermost type lies within the first top-level type containing the location. |
| `ParsedDocuments.ParsedDocument.GetInnermostTypeDefinition` | main/src/core/MonoDevelop.Ide/MonoDevelop.TypeSystem/ParsedDocument.cs:291-300 | The loop returns exactly `Innermost` of the top-level types. |
| `ParsedDocuments.MemberAt` | main/src/core/MonoDevelop.Ide/MonoDevelop.TypeSystem/ParsedDocument.cs:302-308 | A member found contains the location and belongs to the innermost type; with no innermost type there is none. Otherwise it is the first member of that type containing the location, and None exactly when no member contains it. |
| `ParsedDocuments.ParsedDocument.GetMember` | main/src/core/MonoDevelop.Ide/MonoDevelop.TypeSystem/ParsedDocument.cs:302-308 | Returns exactly `MemberAt`. |
| `Folding.ElifFolds` | main/src/core/MonoDevelop.Ide/MonoDevelop.TypeSystem/ParsedDocument.cs:431-434 | One "#elif" fold per condition block, in order. |
| `Folding.RegionFolds` | main/src/core/MonoDevelop.Ide/MonoDevelop.TypeSystem/ParsedDocument.cs:429-437 | One region yields "#if" first, then one "#elif" per block, then "#else" when the else block is not empty, all ConditionalDefine folds. |
| `Folding.ConditionalFolds` | main/src/core/MonoDevelop.Ide/MonoDevelop.TypeSystem/ParsedDocument.cs:427-438 | Every fold of the conditional regions is a ConditionalDefine fold. |
| `Folding.ConditionalFoldsAppend` | main/src/core/MonoDevelop.Ide/MonoDevelop.TypeSystem/ParsedDocument.cs:427-438 | The folds of concatenated region lists are the concatenated folds. |
| `Folding.ConditionalFoldsAt` | main/src/core/MonoDevelop.Ide/MonoDevelop.TypeSystem/ParsedDocument.cs:427-438 | Region n's folds sit right after the folds of the regions before it. |
| `Folding.MemberFolds` | main/src/core/MonoDevelop.Ide/MonoDevelop.TypeSystem/ParsedDocument.cs:459-465 | A Member fold is produced exactly for the members whose body region is complete and spans several lines. |
| `Folding.TypeFolds` | main/src/core/MonoDevelop.Ide/MonoDevelop.TypeSystem/ParsedDocument.cs:447-466 | Every fold of a type is an unnamed Type or Member fold over several lines. |
| `Folding.NestedFolds` | main/src/core/MonoDevelop.Ide/MonoDevelop.TypeSystem/ParsedDocument.cs:452-454 | The same for the folds of the nested types. |
| `Folding.TypesFolds` | main/src/core/MonoDevelop.Ide/MonoDevelop.TypeSystem/ParsedDocument.cs:440-445 | The same for a list of top-level types. |
| `Folding.OwnFoldsOfType` | main/src/core/MonoDevelop.Ide/MonoDevelop.TypeSystem/ParsedDocument.cs:447-466 | A type's own folds are its body fold and, unless it is an interface, its method and property body folds. |
| `Folding.TypeFoldsExact` | main/src/core/MonoDevelop.Ide/MonoDevelop.TypeSystem/ParsedDocument.cs:447-466 | A type yields exactly the own folds of itself and of every type nested in it at any depth. |
| `Folding.NestedFoldsExact` | main/src/core/MonoDevelop.Ide/MonoDevelop.TypeSystem/ParsedDocument.cs:450-452 | The nested types yield exactly the own folds of the types in them. |
| `Folding.InterfaceFolds` | main/src/core/MonoDevelop.Ide/MonoDevelop.TypeSystem/ParsedDocument.cs:456-457 | An interface without nested types yields at most its body fold. |
| `Folding.SomeMemberSpans` | main/src/core/MonoDevelop.Ide/MonoDevelop.TypeSystem/ParsedDocument.cs:610-615 | True exactly when some member's non-empty body contains both ends of the region. |
| `Folding.IncompleteOrSingleLine` | main/src/core/MonoDevelop.Ide/MonoDevelop.TypeSystem/ParsedDocument.cs:468-471 | False exactly when the region begins on line 1 or later and ends on a later line. |
| `Folding.IsInsideMember` | main/src/core/MonoDevelop.Ide/MonoDevelop.TypeSystem/ParsedDocument.cs:606-621 | True only for a non-empty region whose start lies in the class body; true whenever, in addition, a member of the class spans the region. |
| `Folding.InsideNestedMember` | main/src/core/MonoDevelop.Ide/MonoDevelop.TypeSystem/ParsedDocument.cs:616-619 | The nested-type loop from n succeeds exactly when the region is inside a member of some nested type at n or later. |
| `Folding.IsInsideMemberPath` | main/src/core/MonoDevelop.Ide/MonoDevelop.TypeSystem/ParsedDocument.cs:606-621 | IsInsideMember holds exactly when the region is non-empty and there is a chain of nested types from the class to a member spanning the region. Every type on the chain has a body containing the region's start. |
| `Folding.InsideNestedPath` | main/src/core/MonoDevelop.Ide/MonoDevelop.TypeSystem/ParsedDocument.cs:616-619 | A hit in the nested-type loop gives such a chain starting at a nested type. |
| `CommentFolding.LastIndexOfChar` | main/src/core/MonoDevelop.Ide/MonoDevelop.TypeSystem/ParsedDocument.cs:578 | String.LastIndexOf(c, from): the last index at or before from holding c, or -1. |
| `CommentFolding.IndexOf` | main/src/core/MonoDevelop.Ide/MonoDevelop.TypeSystem/ParsedDocument.cs:529-531 | String.IndexOf: the first occurrence of the pattern, or -1 when there is none. |
| `CommentFolding.KeptLength` | main/src/core/MonoDevelop.Ide/MonoDevelop.TypeSystem/ParsedDocument.cs:575-581 | The truncation length is the length itself up to 60. Beyond 60 it is more than 40 and at most 60, ending at 60 or just before a space. |
| `CommentFolding.Ellipsis` | main/src/core/MonoDevelop.Ide/MonoDevelop.TypeSystem/ParsedDocument.cs:585-589 | The label body followed by "..", " ..." or "...", so every label ends in "...". |
| `CommentFolding.SubstrEllipsizeAsWritten` | main/src/core/MonoDevelop.Ide/MonoDevelop.TypeSystem/ParsedDocument.cs:565-590 | As written: " ..." for an empty string or length; the whole string when start is 0 and length at most 60; otherwise a truncated slice. |
| `CommentFolding.SubstrEllipsize` | main/src/core/MonoDevelop.Ide/MonoDevelop.TypeSystem/ParsedDocument.cs:565-590 | Corrected: always ends in "..."; " ..." for an empty string or length. |
| `CommentFolding.SubstrEllipsizeKeeps` | main/src/core/MonoDevelop.Ide/MonoDevelop.TypeSystem/ParsedDocument.cs:575-583 | The label body is a prefix of `str[start..start+length]`: all of it up to 60 characters, otherwise 41 to 60 characters ending at 60 or before a space. |
| `CommentFolding.SubstrEllipsizeStart` | main/src/core/MonoDevelop.Ide/MonoDevelop.TypeSystem/ParsedDocument.cs:575-583 | The label starts with the character at start. |
| `CommentFolding.SubstrEllipsizeAgreeOnWhole` | main/src/core/MonoDevelop.Ide/MonoDevelop.TypeSystem/ParsedDocument.cs:554 | For the whole string from 0 (the "// " call) the corrected and as-written versions agree. |
| `CommentFolding.SubstrEllipsizeKeepsTail` | main/src/core/MonoDevelop.Ide/MonoDevelop.TypeSystem/ParsedDocument.cs:575 | The finding: as written, "ab\ncd" from 0 for 2 keeps the line break; corrected, it keeps "ab". |
| `CommentFolding.ScanWhile` | main/src/core/MonoDevelop.Ide/MonoDevelop.TypeSystem/ParsedDocument.cs:482-495 | The scan loops stop at the first character outside the class, or at the limit. |
| `CommentFolding.TrimSpacesBefore` | main/src/core/MonoDevelop.Ide/MonoDevelop.TypeSystem/ParsedDocument.cs:532-533 | Steps back over the spaces before a position, stopping at a non-space or at 0. |
| `CommentFolding.MultiLineLabel` | main/src/core/MonoDevelop.Ide/MonoDevelop.TypeSystem/ParsedDocument.cs:481-503 | Corrected: a multi-line comment's label is "/* */", or starts with "/* " and ends with "... */"; it never holds a line break. |
| `CommentFolding.BlockLabel` | main/src/core/MonoDevelop.Ide/MonoDevelop.TypeSystem/ParsedDocument.cs:497-502 | The same shape, from given offsets. |
| `CommentFolding.BlockLabelOneLine` | main/src/core/MonoDevelop.Ide/MonoDevelop.TypeSystem/ParsedDocument.cs:489-502 | When the second scan stops before any line break, the corrected label holds no line break. |
| `CommentFolding.BlockLabelStart` | main/src/core/MonoDevelop.Ide/MonoDevelop.TypeSystem/ParsedDocument.cs:497-499 | The label text starts with the character at the start offset. |
| `CommentFolding.SubstrEllipsizeChars` | main/src/core/MonoDevelop.Ide/MonoDevelop.TypeSystem/ParsedDocument.cs:565-590 | Every character of the label is from the kept text, or a '.' or ' ' of the ellipsis. |
| `CommentFolding.MultiLineLabelAsWritten` | main/src/core/MonoDevelop.Ide/MonoDevelop.TypeSystem/ParsedDocument.cs:481-503 | As written (uncorrected SubstrEllipsize): the same "/* */" or "/* ..." + "... */" shape. |
| `CommentFolding.BlockLabelAsWritten` | main/src/core/MonoDevelop.Ide/MonoDevelop.TypeSystem/ParsedDocument.cs:497-502 | The same, from given offsets. |
| `CommentFolding.MultiLineLabelKeepsTail` | main/src/core/MonoDevelop.Ide/MonoDevelop.TypeSystem/ParsedDocument.cs:499 | The finding: as written, the comment "ab\ncd" is labelled "/* ab\ncd... */", while the corrected fold of the model is labelled "/* ab... */". |
| `CommentFolding.FirstTextAtScan` | main/src/core/MonoDevelop.Ide/MonoDevelop.TypeSystem/ParsedDocument.cs:482-488 | The leading scan stops exactly at the first character that is neither white space nor '*'. |
| `CommentFolding.MultiLineLabelEmpty` | main/src/core/MonoDevelop.Ide/MonoDevelop.TypeSystem/ParsedDocument.cs:481-502 | The label is "/* */" exactly when the comment has no text before a line break or '*'. |
| `CommentFolding.MultiLineLabelStart` | main/src/core/MonoDevelop.Ide/MonoDevelop.TypeSystem/ParsedDocument.cs:481-502 | Otherwise the label text starts with that first character. |
| `CommentFolding.SummaryLimit` | main/src/core/MonoDevelop.Ide/MonoDevelop.TypeSystem/ParsedDocument.cs:531-535 | The summary text stops no later than "</summary>", or runs to the end when there is none. |
| `CommentFolding.SummaryLabel` | main/src/core/MonoDevelop.Ide/MonoDevelop.TypeSystem/ParsedDocument.cs:536-551 | A summary label starts with "/// " and ends in "...". |
| `CommentFolding.LineLabel` | main/src/core/MonoDevelop.Ide/MonoDevelop.TypeSystem/ParsedDocument.cs:543-551 | The same, from given offsets. |
| `CommentFolding.DocLabel` | main/src/core/MonoDevelop.Ide/MonoDevelop.TypeSystem/ParsedDocument.cs:526-552 | A documentation run's label has the same shape, and is "/// ..." without a "<summary>". |
| `CommentFolding.RunEnd` | main/src/core/MonoDevelop.Ide/MonoDevelop.TypeSystem/ParsedDocument.cs:513-522 | The run stops at j exactly when comment j does not continue it. |
| `CommentFolding.RunFrom` | main/src/core/MonoDevelop.Ide/MonoDevelop.TypeSystem/ParsedDocument.cs:509-522 | A run ends within the list, not before its start. |
| `CommentFolding.RunLines` | main/src/core/MonoDevelop.Ide/MonoDevelop.TypeSystem/ParsedDocument.cs:513-521 | The comments the run loop takes lie on consecutive lines. |
| `CommentFolding.RunLabel` | main/src/core/MonoDevelop.Ide/MonoDevelop.TypeSystem/ParsedDocument.cs:524-555 | A documentation run's label starts with "/// " and ends in "..."; any other run's label starts with "// ", ends in "..." and is drawn from the first comment's text. |
| `CommentFolding.RunFold` | main/src/core/MonoDevelop.Ide/MonoDevelop.TypeSystem/ParsedDocument.cs:509-561 | A run's fold is a Comment fold named by its label, from the first comment's start to the last comment's end, and the run covers one line per comment. |
| `CommentFolding.MultiLineFold` | main/src/core/MonoDevelop.Ide/MonoDevelop.TypeSystem/ParsedDocument.cs:481-504 | A multi-line comment's fold is a Comment fold over the comment's region, with a one-line name. |
| `CommentFolding.RunShape` | main/src/core/MonoDevelop.Ide/MonoDevelop.TypeSystem/ParsedDocument.cs:513-518 | Every comment of a run starts a line, has the first comment's type and sits on the line after the previous one. |
| `CommentFolding.TextsSnoc` | main/src/core/MonoDevelop.Ide/MonoDevelop.TypeSystem/ParsedDocument.cs:519 | Appending one more comment's text to the builder. |
| `CommentFolding.CommentFoldsFrom` | main/src/core/MonoDevelop.Ide/MonoDevelop.TypeSystem/ParsedDocument.cs:474-563 | Every fold made from comments is a Comment fold. |
| `CommentFolding.Origins` | main/src/core/MonoDevelop.Ide/MonoDevelop.TypeSystem/ParsedDocument.cs:478-562 | The comments that get a fold: indices within the list, in strictly increasing order. |
| `CommentFolding.MultiLineOrigins` | main/src/core/MonoDevelop.Ide/MonoDevelop.TypeSystem/ParsedDocument.cs:481-504 | Every multi-line comment is the origin of a fold, even one that follows a run the loop skipped. |
| `CommentFolding.CommentFoldOrigins` | main/src/core/MonoDevelop.Ide/MonoDevelop.TypeSystem/ParsedDocument.cs:474-563 | The n-th fold is the fold of the n-th origin: a multi-line fold, or the fold of a run of two or more line comments. |
| `CommentFolding.OriginsCons` | main/src/core/MonoDevelop.Ide/MonoDevelop.TypeSystem/ParsedDocument.cs:474-563 | One fold in front keeps the origin correspondence. |
| `CommentFolding.LoneLineComment` | main/src/core/MonoDevelop.Ide/MonoDevelop.TypeSystem/ParsedDocument.cs:524 | A single line comment gives no fold (`j - i > 1` fails). |
| `CommentFolding.TwoLineComments` | main/src/core/MonoDevelop.Ide/MonoDevelop.TypeSystem/ParsedDocument.cs:509-561 | Two line comments on consecutive lines give one fold spanning both, labelled "// " and the first text. |
| `CommentFolding.MultiLineText` | main/src/core/MonoDevelop.Ide/MonoDevelop.TypeSystem/ParsedDocument.cs:482-503 | The scan loops compute exactly `MultiLineLabel`. |
| `CommentFolding.BlockText` | main/src/core/MonoDevelop.Ide/MonoDevelop.TypeSystem/ParsedDocument.cs:497-502 | Computes exactly `BlockLabel`. |
| `CommentFolding.SummaryText` | main/src/core/MonoDevelop.Ide/MonoDevelop.TypeSystem/ParsedDocument.cs:526-552 | The summary scan computes exactly `DocLabel`. |
| `CommentFolding.SummaryLineText` | main/src/core/MonoDevelop.Ide/MonoDevelop.TypeSystem/ParsedDocument.cs:536-551 | Computes exactly `SummaryLabel`. |
| `CommentFolding.LineText` | main/src/core/MonoDevelop.Ide/MonoDevelop.TypeSystem/ParsedDocument.cs:543-551 | Computes exactly `LineLabel`. |
| `CommentFolding.ScanRun` | main/src/core/MonoDevelop.Ide/MonoDevelop.TypeSystem/ParsedDocument.cs:509-522 | The run loop ends at `RunFrom`, with the concatenated texts and the end of the last comment. |
| `CommentFolding.RunFoldText` | main/src/core/MonoDevelop.Ide/MonoDevelop.TypeSystem/ParsedDocument.cs:524-561 | Builds exactly `RunFold`. |
| `CommentFolding.FoldAt` | main/src/core/MonoDevelop.Ide/MonoDevelop.TypeSystem/ParsedDocument.cs:478-561 | One pass of the loop from comment i: the folds from i are the fold it yields, if any, followed by the folds from where it continues. |
| `CommentFolding.CommentFolds` | main/src/core/MonoDevelop.Ide/MonoDevelop.TypeSystem/ParsedDocument.cs:474-563 | The whole loop yields exactly `CommentFoldsFrom` of the list. |
| `DocumentSwitching.Item.constructor` | main/src/core/MonoDevelop.Ide/MonoDevelop.Ide.Gui/DocumentSwitcher.cs:450-460 | An item with its title and list title. |
| `DocumentSwitching.Category.constructor` | main/src/core/MonoDevelop.Ide/MonoDevelop.Ide.Gui/DocumentSwitcher.cs:508-511 | A new category has its title, no items and first visible item 0. |
| `DocumentSwitching.Category.AddItem` | main/src/core/MonoDevelop.Ide/MonoDevelop.Ide.Gui/DocumentSwitcher.cs:513-516 | Appends the item. |
| `DocumentSwitching.ViewAt` | main/src/core/MonoDevelop.Ide/MonoDevelop.Ide.Gui/DocumentSwitcher.cs:489-522 | The view of a category is its object, its items and its first visible item. |
| `DocumentSwitching.IndexOf` | main/src/core/MonoDevelop.Ide/MonoDevelop.Ide.Gui/DocumentSwitcher.cs:354 | List.IndexOf: the first position of the item, and -1 exactly when it is absent. |
| `DocumentSwitching.TruncDiv` | main/src/core/MonoDevelop.Ide/MonoDevelop.Ide.Gui/DocumentSwitcher.cs:316 | C# division truncates toward zero: equal to floor division for non-negative values, 0 strictly between -b and b. |
| `DocumentSwitching.Holder` | main/src/core/MonoDevelop.Ide/MonoDevelop.Ide.Gui/DocumentSwitcher.cs:353-357 | The loops act on the first category holding the active item; none before it holds it. |
| `DocumentSwitching.AheadReaches` | main/src/core/MonoDevelop.Ide/MonoDevelop.Ide.Gui/DocumentSwitcher.cs:396-404 | With a non-empty category, the forward search reaches one within a full cycle. |
| `DocumentSwitching.BehindReaches` | main/src/core/MonoDevelop.Ide/MonoDevelop.Ide.Gui/DocumentSwitcher.cs:406-414 | The same backwards. |
| `DocumentSwitching.NextCat` | main/src/core/MonoDevelop.Ide/MonoDevelop.Ide.Gui/DocumentSwitcher.cs:396-404 | The result is non-empty, and it is the first non-empty category after i, cyclically. |
| `DocumentSwitching.PrevCat` | main/src/core/MonoDevelop.Ide/MonoDevelop.Ide.Gui/DocumentSwitcher.cs:406-414 | The first non-empty category before i, cyclically. |
| `DocumentSwitching.NextCatIs` | main/src/core/MonoDevelop.Ide/MonoDevelop.Ide.Gui/DocumentSwitcher.cs:396-404 | That category is unique: any first-non-empty distance gives `NextCat`. |
| `DocumentSwitching.PrevCatIs` | main/src/core/MonoDevelop.Ide/MonoDevelop.Ide.Gui/DocumentSwitcher.cs:406-414 | The same for `PrevCat`. |
| `DocumentSwitching.NextThenPrevCat` | main/src/core/MonoDevelop.Ide/MonoDevelop.Ide.Gui/DocumentSwitcher.cs:396-414 | From a non-empty category, the previous of the next non-empty category is itself. |
| `DocumentSwitching.DocumentList.GetNextCat` | main/src/core/MonoDevelop.Ide/MonoDevelop.Ide.Gui/DocumentSwitcher.cs:396-404 | The do-while loop returns the category at `NextCat`. |
| `DocumentSwitching.DocumentList.GetPrevCat` | main/src/core/MonoDevelop.Ide/MonoDevelop.Ide.Gui/DocumentSwitcher.cs:406-414 | The loop returns the category at `PrevCat`. |
| `DocumentSwitching.SetFirstScrolled` | main/src/core/MonoDevelop.Ide/MonoDevelop.Ide.Gui/DocumentSwitcher.cs:503-506 | Setting a first visible item within the items keeps every category scrolled within its items. |
| `DocumentSwitching.SetFirstSameItems` | main/src/core/MonoDevelop.Ide/MonoDevelop.Ide.Gui/DocumentSwitcher.cs:503-506 | Scrolling changes no category's items. |
| `DocumentSwitching.NextSameItems` | main/src/core/MonoDevelop.Ide/MonoDevelop.Ide.Gui/DocumentSwitcher.cs:351-371 | NextItem changes first visible items only. |
| `DocumentSwitching.PrevSameItems` | main/src/core/MonoDevelop.Ide/MonoDevelop.Ide.Gui/DocumentSwitcher.cs:373-394 | PrevItem changes first visible items only. |
| `DocumentSwitching.ViewsCoherent` | main/src/core/MonoDevelop.Ide/MonoDevelop.Ide.Gui/DocumentSwitcher.cs:489-522 | A category object listed twice shows the same items both times. |
| `DocumentSwitching.NextScrolled` | main/src/core/MonoDevelop.Ide/MonoDevelop.Ide.Gui/DocumentSwitcher.cs:351-371 | NextItem keeps every first visible item within its category's items. |
| `DocumentSwitching.PrevScrolled` | main/src/core/MonoDevelop.Ide/MonoDevelop.Ide.Gui/DocumentSwitcher.cs:373-394 | PrevItem keeps every first visible item within its category's items. |
| `DocumentSwitching.IndexOfDistinct` | main/src/core/MonoDevelop.Ide/MonoDevelop.Ide.Gui/DocumentSwitcher.cs:354 | With distinct items, IndexOf finds an item at its own position. |
| `DocumentSwitching.HolderOf` | main/src/core/MonoDevelop.Ide/MonoDevelop.Ide.Gui/DocumentSwitcher.cs:353-357 | With distinct items, an item's holder is its own category. |
| `DocumentSwitching.SameItemsDistinct` | main/src/core/MonoDevelop.Ide/MonoDevelop.Ide.Gui/DocumentSwitcher.cs:351-394 | Keeping every category's items keeps them distinct. |
| `DocumentSwitching.PrevOfItem` | main/src/core/MonoDevelop.Ide/MonoDevelop.Ide.Gui/DocumentSwitcher.cs:380-384 | PrevItem from a non-first item activates the item before it. |
| `DocumentSwitching.NextOfItem` | main/src/core/MonoDevelop.Ide/MonoDevelop.Ide.Gui/DocumentSwitcher.cs:358-362 | NextItem from a non-last item activates the item after it. |
| `DocumentSwitching.NextPrevInverse` | main/src/core/MonoDevelop.Ide/MonoDevelop.Ide.Gui/DocumentSwitcher.cs:351-394 | Within a category with distinct items, PrevItem after NextItem returns to the item. |
| `DocumentSwitching.PrevNextInverse` | main/src/core/MonoDevelop.Ide/MonoDevelop.Ide.Gui/DocumentSwitcher.cs:351-394 | NextItem after PrevItem returns to the item. |
| `DocumentSwitching.NextWithinCategory` | main/src/core/MonoDevelop.Ide/MonoDevelop.Ide.Gui/DocumentSwitcher.cs:358-362 | The next item becomes active. The category scrolls by one exactly when that item passes the first visible item plus 37. Other categories are unchanged. |
| `DocumentSwitching.PrevWithinCategory` | main/src/core/MonoDevelop.Ide/MonoDevelop.Ide.Gui/DocumentSwitcher.cs:380-384 | The item before becomes active. The category scrolls up by one exactly when that item is above the first visible item. Other categories are unchanged. |
| `DocumentSwitching.Next` | main/src/core/MonoDevelop.Ide/MonoDevelop.Ide.Gui/DocumentSwitcher.cs:351-371 | Unchanged when no category holds the active item; otherwise the new active item is listed in some category. |
| `DocumentSwitching.NextAt` | main/src/core/MonoDevelop.Ide/MonoDevelop.Ide.Gui/DocumentSwitcher.cs:358-369 | The category count is kept and the new active item is listed. |
| `DocumentSwitching.Prev` | main/src/core/MonoDevelop.Ide/MonoDevelop.Ide.Gui/DocumentSwitcher.cs:373-394 | The same for PrevItem. |
| `DocumentSwitching.PrevAt` | main/src/core/MonoDevelop.Ide/MonoDevelop.Ide.Gui/DocumentSwitcher.cs:380-392 | The same for the holding category's branch. |
| `DocumentSwitching.NextAtWithin` | main/src/core/MonoDevelop.Ide/MonoDevelop.Ide.Gui/DocumentSwitcher.cs:358-361 | From a non-last item: the next item, with a scroll by one exactly when it passes the last visible slots. |
| `DocumentSwitching.PrevAtWithin` | main/src/core/MonoDevelop.Ide/MonoDevelop.Ide.Gui/DocumentSwitcher.cs:380-383 | From a non-first item: the item before, with a scroll up by one exactly when it was above the first visible item. |
| `DocumentSwitching.PrevAtWraps` | main/src/core/MonoDevelop.Ide/MonoDevelop.Ide.Gui/DocumentSwitcher.cs:384-391 | From the first item: the last item of the target category, scrolled when it lies more than 40 past the first visible item. |
| `DocumentSwitching.PrevWraps` | main/src/core/MonoDevelop.Ide/MonoDevelop.Ide.Gui/DocumentSwitcher.cs:384-391 | PrevItem from the first item activates the last item of the same or previous non-empty category, scrolls only that category, and only as the source does. |
| `DocumentSwitching.NextWraps` | main/src/core/MonoDevelop.Ide/MonoDevelop.Ide.Gui/DocumentSwitcher.cs:363-368 | From the last item, the first item of the same category or of the next non-empty one becomes active, and that category scrolls to the top. |
| `DocumentSwitching.DocumentList.constructor` | main/src/core/MonoDevelop.Ide/MonoDevelop.Ide.Gui/DocumentSwitcher.cs:46-54 | No categories, label width 15, no active item. |
| `DocumentSwitching.DocumentList.AddCategory` | main/src/core/MonoDevelop.Ide/MonoDevelop.Ide.Gui/DocumentSwitcher.cs:81-84 | Appends the category. |
| `DocumentSwitching.DocumentList.SetActiveItem` | main/src/core/MonoDevelop.Ide/MonoDevelop.Ide.Gui/DocumentSwitcher.cs:55-62 | Only the active item changes. |
| `DocumentSwitching.DocumentList.Scroll` | main/src/core/MonoDevelop.Ide/MonoDevelop.Ide.Gui/DocumentSwitcher.cs:503-506 | Sets one category's first visible item; the views change exactly as `SetFirst` says. |
| `DocumentSwitching.DocumentList.NextItem` | main/src/core/MonoDevelop.Ide/MonoDevelop.Ide.Gui/DocumentSwitcher.cs:351-371 | The new state is exactly `Next` of the old state, and the category list is unchanged. |
| `DocumentSwitching.DocumentList.NextFrom` | main/src/core/MonoDevelop.Ide/MonoDevelop.Ide.Gui/DocumentSwitcher.cs:358-369 | The loop body for the holding category gives `NextAt`. |
| `DocumentSwitching.DocumentList.NextWrap` | main/src/core/MonoDevelop.Ide/MonoDevelop.Ide.Gui/DocumentSwitcher.cs:363-368 | The wrap-around branch gives `NextAt`. |
| `DocumentSwitching.DocumentList.PrevItem` | main/src/core/MonoDevelop.Ide/MonoDevelop.Ide.Gui/DocumentSwitcher.cs:373-394 | The new state is exactly `Prev` of the old state. |
| `DocumentSwitching.DocumentList.PrevFrom` | main/src/core/MonoDevelop.Ide/MonoDevelop.Ide.Gui/DocumentSwitcher.cs:380-392 | The loop body for the holding category gives `PrevAt`. |
| `DocumentSwitching.DocumentList.PrevWrap` | main/src/core/MonoDevelop.Ide/MonoDevelop.Ide.Gui/DocumentSwitcher.cs:385-391 | The wrap-around branch gives `PrevAt`. |
| `DocumentSwitching.DocumentList.PrevTarget` | main/src/core/MonoDevelop.Ide/MonoDevelop.Ide.Gui/DocumentSwitcher.cs:385-387 | The category the wrap-around moves to: the same one, or `PrevCat`. |
| `DocumentSwitching.DocumentList.ActivateLast` | main/src/core/MonoDevelop.Ide/MonoDevelop.Ide.Gui/DocumentSwitcher.cs:388-390 | Activates the category's last item, scrolling it as the source does; the category list is unchanged. |
| `DocumentSwitching.LeftScan` | main/src/core/MonoDevelop.Ide/MonoDevelop.Ide.Gui/DocumentSwitcher.cs:310-326 | The scan as written keeps the categories; the active item it leaves is the old one or listed. |
| `DocumentSwitching.LeftAsWritten` | main/src/core/MonoDevelop.Ide/MonoDevelop.Ide.Gui/DocumentSwitcher.cs:308-327 | LeftItem as written: the same. |
| `DocumentSwitching.RightScan` | main/src/core/MonoDevelop.Ide/MonoDevelop.Ide.Gui/DocumentSwitcher.cs:331-348 | The same for RightItem's scan. |
| `DocumentSwitching.RightAsWritten` | main/src/core/MonoDevelop.Ide/MonoDevelop.Ide.Gui/DocumentSwitcher.cs:329-349 | RightItem as written: the same. |
| `DocumentSwitching.Left` | main/src/core/MonoDevelop.Ide/MonoDevelop.Ide.Gui/DocumentSwitcher.cs:308-327 | Corrected LeftItem: unchanged when no category holds the active item; otherwise only the active item changes, to a listed one. |
| `DocumentSwitching.Right` | main/src/core/MonoDevelop.Ide/MonoDevelop.Ide.Gui/DocumentSwitcher.cs:329-349 | Corrected RightItem: the same. |
| `DocumentSwitching.LeftAt` | main/src/core/MonoDevelop.Ide/MonoDevelop.Ide.Gui/DocumentSwitcher.cs:315-324 | The corrected left move changes only the active item. |
| `DocumentSwitching.RightAt` | main/src/core/MonoDevelop.Ide/MonoDevelop.Ide.Gui/DocumentSwitcher.cs:336-347 | The corrected right move changes only the active item. |
| `DocumentSwitching.LeftSafe` | main/src/core/MonoDevelop.Ide/MonoDevelop.Ide.Gui/DocumentSwitcher.cs:308-327 | While every category is scrolled within its items and the active item is shown, the corrected LeftItem never indexes out of range. It moves 20 positions back, or to the previous non-empty category. |
| `DocumentSwitching.RightSafe` | main/src/core/MonoDevelop.Ide/MonoDevelop.Ide.Gui/DocumentSwitcher.cs:329-349 | Under the same conditions the corrected RightItem never fails. It moves 20 positions on, or to the next non-empty category. |
| `DocumentSwitching.LeftRescans` | main/src/core/MonoDevelop.Ide/MonoDevelop.Ide.Gui/DocumentSwitcher.cs:310-326 | The finding: as written, LeftItem with two one-item categories moves and moves back, ending where it began. |
| `DocumentSwitching.RightRescans` | main/src/core/MonoDevelop.Ide/MonoDevelop.Ide.Gui/DocumentSwitcher.cs:331-348 | The finding: as written, RightItem over three one-item categories skips the second. |
| `DocumentSwitching.LeftRelativeIndex` | main/src/core/MonoDevelop.Ide/MonoDevelop.Ide.Gui/DocumentSwitcher.cs:323 | The finding: as written, LeftItem in a scrolled category lands one item off. |
| `DocumentSwitching.RightRelativeIndex` | main/src/core/MonoDevelop.Ide/MonoDevelop.Ide.Gui/DocumentSwitcher.cs:337-346 | The finding: as written, RightItem in a category of 45 items scrolled by five, from position 5, activates position 20; the corrected one activates position 25. |
| `DocumentSwitching.DocumentList.LeftItem` | main/src/core/MonoDevelop.Ide/MonoDevelop.Ide.Gui/DocumentSwitcher.cs:308-327 | The new state is exactly `Left` of the old one. ok is false, and nothing changes, exactly where an index would be out of range. |
| `DocumentSwitching.DocumentList.LeftFrom` | main/src/core/MonoDevelop.Ide/MonoDevelop.Ide.Gui/DocumentSwitcher.cs:315-324 | The loop body gives `LeftAt`. |
| `DocumentSwitching.DocumentList.RightItem` | main/src/core/MonoDevelop.Ide/MonoDevelop.Ide.Gui/DocumentSwitcher.cs:329-349 | The new state is exactly `Right` of the old one, with ok as for LeftItem. |
| `DocumentSwitching.DocumentList.RightFrom` | main/src/core/MonoDevelop.Ide/MonoDevelop.Ide.Gui/DocumentSwitcher.cs:336-347 | The loop body gives `RightAt`. |
| `DocumentSwitching.Ellipsize` | main/src/core/MonoDevelop.Ide/MonoDevelop.Ide.Gui/DocumentSwitcher.cs:155-160 | Null stays null and a short string is unchanged. A longer string becomes exactly maxLength characters: its first maxLength-3 characters and "...". |
| `DocumentSwitching.EllipsizeIdempotent` | main/src/core/MonoDevelop.Ide/MonoDevelop.Ide.Gui/DocumentSwitcher.cs:155-160 | Ellipsizing twice is ellipsizing once. |
| `DocumentSwitching.Longest` | main/src/core/MonoDevelop.Ide/MonoDevelop.Ide.Gui/DocumentSwitcher.cs:420-422 | No display title (ListTitle ?? Title) of the items is longer. |
| `DocumentSwitching.LongestIn` | main/src/core/MonoDevelop.Ide/MonoDevelop.Ide.Gui/DocumentSwitcher.cs:419-423 | No display title in any category is longer. |
| `DocumentSwitching.LabelWidth` | main/src/core/MonoDevelop.Ide/MonoDevelop.Ide.Gui/DocumentSwitcher.cs:418-423 | The width lies in 15..30. It is at least every title's length unless it is 30, and it is 15, 30 or the longest title. |
| `DocumentSwitching.ShortTitlesWhole` | main/src/core/MonoDevelop.Ide/MonoDevelop.Ide.Gui/DocumentSwitcher.cs:239 | A title of at most 30 characters is drawn uncut. |
| `DocumentSwitching.DocumentList.UpdateMaxLength` | main/src/core/MonoDevelop.Ide/MonoDevelop.Ide.Gui/DocumentSwitcher.cs:418-423 | The nested loops of OnSizeRequested compute exactly `LabelWidth`. |
| `DocumentSwitching.LongestSnoc` | main/src/core/MonoDevelop.Ide/MonoDevelop.Ide.Gui/DocumentSwitcher.cs:420-422 | One more item updates the longest title by Max. |
| `DocumentSwitching.LongestInSnoc` | main/src/core/MonoDevelop.Ide/MonoDevelop.Ide.Gui/DocumentSwitcher.cs:419-423 | One more category updates it by Max. |
| `DocumentSwitching.AheadStep` | main/src/core/MonoDevelop.Ide/MonoDevelop.Ide.Gui/DocumentSwitcher.cs:400 | `(i + 1) % Count` moves one category further, cyclically. |
| `DocumentSwitching.BehindStep` | main/src/core/MonoDevelop.Ide/MonoDevelop.Ide.Gui/DocumentSwitcher.cs:410 | `(Count + i - 1) % Count` moves one category back, cyclically. |

## Left out

- NSObjectProjectInfo.Update() first updates every referenced project's info (lines 73-77). That call reaches other objects through the info service and is left out. The referenced projects' tables are parameters instead.
- ObjCIntegration: the info service, the project DOM, `GetRegisteredObjects` and `GetInheritanceTree` are foreign code. The registered records are a parameter (a sequence). A reference without project info contributes no table. The inheritance tree is a function from a .NET name to its chain of ancestors.
- ObjCIntegration: the warning that TryResolveObjcToCli logs when a lookup fails (lines 134-146) is I/O and is not modelled.
- ObjCIntegration: Dictionary.Add throws on a duplicate or null key. The model requires distinct, non-null names (`Registrable`), and requires non-null lookup keys (`CliKeysPresent`, `ObjcKeysPresent`), rather than modelling the exception.
- ObjCIntegration: outlets and action parameters are values inside the record (`Slot`), so aliasing of the same outlet object between records is not modelled.
- ObjCIntegration.NSObjectProjectInfo.UpdateIfNeeded clears `needsUpdating` before rebuilding; the source clears it after. No exception path is modelled, so the two cannot be told apart.
- ParsedDocuments: the base `ParsedDocument` and `DefaultParsedDocument` are one class here. A base document has no top-level types, and with `types == []` the three lookups return `None`, which matches the base class's null results (lines 124-137).
- ObjCIntegration: NSObjectTypeInfo.cs is not part of this model. The record's fields are those the two resolve passes read and write; `IBOutlet` and `IBAction` records become the `Slot` and `Action` values.
- ParsedDocuments: `Freeze`, `IsFrozen`, `LastWriteTime`, annotations, attributes, `ParsedDocumentDecorator` and `GenerateFolds` are not part of this model. Neither is `FlagIfInsideMembers` (lines 592-604), which only calls `IsInsideMember` and a callback.
- TypeSystem: the region predicates `DomRegion.IsEmpty` and `DomRegion.IsInside` come from the type-system library. They are parameters (`RegionOps`) with no assumed properties.
- CommentFolding: `char.IsWhiteSpace` and `char.IsPunctuation` are parameters (`CharClasses`). `String.IndexOf(string)` is modelled as an ordinal character-by-character search; culture-sensitive comparison is not modelled.
- CommentFolding: the comment list holds no null entries, so the source's `curComment == null` test is not modelled.
- CommentFolding.SubstrEllipsize: requires `start` and `length` to describe a slice of `str`. Every call site in the source passes such a slice; outside it, Substring would throw.
- Folding: the folds are sequences, so the lazy `yield return` enumeration is not modelled.
- DocumentSwitching: drawing and layout (OnExposeEvent, GetItemAt, most of OnSizeRequested), the mouse and hover handlers, key handling in `DocumentSwitcher` and the window itself are GTK/Pango code and are not part of this model. Icons, descriptions, paths and tags of items are not modelled.
- DocumentSwitching.DocumentList.SetActiveItem: the ActiveItemChanged event and QueueDraw are not modelled.
- DocumentSwitching: `Item.Title` is never null, so `ListTitle ?? Title` is a string.
- DocumentSwitching: an ArgumentOutOfRangeException of a list index is modelled as `None` or `ok == false`, leaving the state unchanged.
- DocumentSwitching.DocumentList.LeftItem and RightItem model the corrected behaviour (stop after the first move; index by absolute position at lines 323, 337 and 346); the code as written is kept as `LeftAsWritten` and `RightAsWritten` (see Findings).
- CommentFolding.MultiLineLabel, BlockLabel, MultiLineText, BlockText, CommentFoldsFrom and CommentFolds use the corrected SubstrEllipsize, so their labels differ from the source's for a multi-line comment that starts with text and has a line break or '*' within its first 60 characters; the label as written is `MultiLineLabelAsWritten` (see Findings).
- DocumentSwitching.Longest: states only an upper bound (`LabelWidth` states the rest); it is weaker than "the maximum".
- DocumentSwitching.LongestIn: states only an upper bound, as for `Longest`.

## Findings

| source | as written | input that shows it | evidently intended | confidence | as-written member | corrected member |
|---|---|---|---|---|---|---|
| main/src/core/MonoDevelop.Ide/MonoDevelop.TypeSystem/ParsedDocument.cs:575 | When `start == 0 && length <= 60`, SubstrEllipsize skips the Substring and keeps the whole string | a multi-line comment whose text is "ab\ncd" (startOffset 0, endOffset 2): the label holds "ab\ncd" including the line break | keep only `str.Substring(start, length)`, "ab" | not executed | `CommentFolding.SubstrEllipsizeKeepsTail` | `CommentFolding.SubstrEllipsize` |
| main/src/core/MonoDevelop.Ide/MonoDevelop.Ide.Gui/DocumentSwitcher.cs:310-326 | LeftItem's loop has no `break` after moving, so a later category holding the new active item moves it again | two categories with one item each, active in the first: it moves to the second, the scan reaches the second and moves back | stop after the first move, as NextItem and PrevItem do | not executed | `DocumentSwitching.LeftRescans` | `DocumentSwitching.DocumentList.LeftItem` |
| main/src/core/MonoDevelop.Ide/MonoDevelop.Ide.Gui/DocumentSwitcher.cs:331-348 | RightItem's loop has no `break` either | three categories with one item each, active in the first: the active item ends in the third, skipping the second | stop after the first move | not executed | `DocumentSwitching.RightRescans` | `DocumentSwitching.DocumentList.RightItem` |
| main/src/core/MonoDevelop.Ide/MonoDevelop.TypeSystem/ParsedDocument.cs:499 | The multi-line label calls SubstrEllipsize from offset 0, where the guard at line 575 keeps the whole comment text | a multi-line comment whose text is "ab\ncd": the fold label is "/* ab\ncd... */", two lines | "/* ab... */", the text up to the line break | not executed | `CommentFolding.MultiLineLabelKeepsTail` | `CommentFolding.MultiLineLabel` |
| main/src/core/MonoDevelop.Ide/MonoDevelop.Ide.Gui/DocumentSwitcher.cs:337-346 | RightItem tests and indexes with `relIndex`, the position relative to the first visible item, as if it were a list index | one category of 45 items scrolled by five, active at position 5: position 20 becomes active instead of position 25 | `cat.Items[idx + maxItems]` | not executed | `DocumentSwitching.RightRelativeIndex` | `DocumentSwitching.RightSafe` |
| main/src/core/MonoDevelop.Ide/MonoDevelop.Ide.Gui/DocumentSwitcher.cs:323 | `cat.Items[relIndex - maxItems]` uses the index relative to the first visible item as a list index | one category of 22 items scrolled by one, active at position 21: position 0 becomes active instead of position 1 | `cat.Items[idx - maxItems]` | not executed | `DocumentSwitching.LeftRelativeIndex` | `DocumentSwitching.LeftSafe` |
