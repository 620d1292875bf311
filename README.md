# Babylon.js 3MF export and UI logic, modelled in Dafny

This project models the core of the Babylon.js 3MF exporter and proves properties of the model. The exporter turns a scene's meshes into a 3MF package: a zip archive holding three Open Packaging Conventions (ECMA-376 Part 2) parts. Those parts are the content types, the relationships and the 3D model.

The exporter has five stages, each modelled in its own module:

- **Geometry extraction** (`BjsSerializer`, after `3mfSerializer.ts`):
  - submesh compaction with its old-to-new vertex renumbering;
  - the quarter-turn axis swap of vertices;
  - the reordering of a 4x4 world matrix into the 12 values of a 3MF transform;
  - the grouping of instances into components objects;
  - the pass that turns meshes into object resources.
- **The document model and its builders**:
  - `ThreeMfInterfaces`: units, object types and the property-group rule for triangles.
  - `ThreeMfModel`: the 3MF classes, their constructors and defaults, their XML descriptor tables, matrices and the colour encoder.
  - `ThreeMfOpc`: the OPC parts and their names.
  - `ThreeMfUtils`: the incremental id factory.
  - `ThreeMfBuilder`: the fluent builders for objects, materials, models and documents.
- **The metadata-driven XML serializer**:
  - `XmlInterfaces`: qualified names and the decorator metadata, given as per-class descriptor tables.
  - `XmlFormat`: the deterministic number formatter.
  - `XmlSerialization`: the namespace-gathering pass, which assigns `ns0`, `ns1`, … in first-encounter order, and the emission pass, which writes attributes before child elements.
- **The XML token writer** (`XmlBuilding`):
  - the stack of open element contexts;
  - start-tag closing, and self-closing versus end tags;
  - text and attribute escaping (section 2.4 of XML 1.0);
  - the XML declaration (section 2.8 of XML 1.0);
  - prefix binding, including the reserved `xml` and `xmlns` prefixes (section 3 of Namespaces in XML 1.0).
- **Writers and packaging**:
  - `XmlWriters`: the string writer, and the UTF-8 byte writer that flushes pending text past a threshold.
  - `ThreeMfPackage`: the default document, the order of the three zip entries, and the gathering of an archive's chunks into one buffer.

An object graph handed to the serializer is a datatype tree whose objects and arrays carry an identity, together with a set of visited identities. The serializer speaks to the token writer through the builder interface, and the token writer speaks to a writer through `write` calls. Both are modelled as logs of those calls. `ThreeMfPackage` streams a log of write calls into the byte writer, but which log a part produces is a parameter of `SerializeAsync`: it is not derived here from the serializer and the token writer.

Beside the exporter, the project models four smaller pieces of logic:

- **The accordion** (`Accordion`, after `accordion.contexts.tsx`):
  - the reducer over the pinned and hidden id lists;
  - the derived state of an item;
  - whether a section is empty.
- **The gizmo service** (`GizmoService`, after `gizmoService.ts`):
  - the reference-counted utility layers and gizmos;
  - the mode setters and the mode resolution of the gizmo manager;
  - the disposal of a node whose camera or light gizmo is registered: the gizmo is disposed but its entry stays, so later requests hand it out again and the last release disposes it a second time (`GizmoService.NodeDisposedStale`, `GizmoService.NodeDisposedTwice`).
- **The spin button** (`SpinButton`, after `spinButton.tsx`):
  - the modifier-scaled step and the clamped precision;
  - value validation and the commit rule.
- **The Lottie player**:
  - `LottieConfig`: configuration defaulting and finalisation.
  - `LottieScale`: the canvas and atlas scale factors.
  - `LottieController`: the playback frame clock, play, stop and scale, and the pruning of the render tree.

Further modules:

- `JsRuntime` holds the JavaScript built-ins the code relies on: `Math.round`, `Math.trunc`, `toLowerCase` (on the ASCII, Latin-1 and basic Cyrillic letters), `trim`, `split`, `join`, UTF-16 `length`, `TextEncoder`, and numbers that may be NaN or infinite.
- `Wrappers` holds `Option` and `Result`.

Exceptions the code throws become `Err` results. Quantities are real numbers.

## Model

| member | source | states |
|---|---|---|
| JsRuntime.Round | packages/dev/serializers/src/3MF/core/model/3mf.math.ts:55 | Math.round: the integer nearest the value, halves going up |
| JsRuntime.Hex2 | packages/dev/serializers/src/3MF/core/model/3mf.math.ts:56 | two uppercase hex digits whose value is the byte |
| JsRuntime.ToLower | packages/dev/serializers/src/3MF/core/model/3mf.builder.ts:266 | the same length; each ASCII, Latin-1 or basic Cyrillic capital becomes its small letter and every other character is kept |
| JsRuntime.ToLowerIdempotent | packages/dev/serializers/src/3MF/core/model/3mf.builder.ts:266 | lowering a lowered name changes nothing |
| JsRuntime.Utf16LengthAppend | packages/dev/serializers/src/3MF/core/xml/xml.builder.string.ts:19-21 | the length of a joined string is the sum of the lengths of its pieces |
| JsRuntime.SplitJoin | packages/dev/serializers/src/3MF/core/model/3mf.math.ts:44-46 | splitting a join on its one-character separator gives the pieces back when none contains it |
| JsRuntime.Utf8Encode | packages/dev/serializers/src/3MF/core/xml/xml.builder.bytes.ts:54 | between one and four bytes per character |
| JsRuntime.Utf8EncodeAppend | packages/dev/serializers/src/3MF/core/xml/xml.builder.bytes.ts:54 | encoding a concatenation gives the concatenated encodings, so flushing in pieces gives the same bytes |
| Accordion.Without | packages/dev/sharedUiComponents/src/fluent/primitives/accordion.contexts.tsx:85 | filtering out an id removes every occurrence of it and keeps every other id |
| Accordion.IndexOf | packages/dev/sharedUiComponents/src/fluent/primitives/accordion.contexts.tsx:98 | the first position of the id, and -1 exactly when it is absent |
| Accordion.Dedup | packages/dev/sharedUiComponents/src/fluent/primitives/accordion.contexts.tsx:122 | spreading a Set gives a duplicate-free list with the same members |
| Accordion.DedupExtends | packages/dev/sharedUiComponents/src/fluent/primitives/accordion.contexts.tsx:122 | a Set built from a longer list keeps the earlier ids first, in their order |
| Accordion.KeepActive | packages/dev/sharedUiComponents/src/fluent/primitives/accordion.contexts.tsx:108-109 | the filter keeps exactly the active ids |
| Accordion.KeepActiveLength | packages/dev/sharedUiComponents/src/fluent/primitives/accordion.contexts.tsx:108-112 | the filtered list is the list itself when all ids are active and strictly shorter otherwise, so comparing lengths detects stale ids |
| Accordion.Reduce | packages/dev/sharedUiComponents/src/fluent/primitives/accordion.contexts.tsx:73-128 | each action changes only the fields it names |
| Accordion.SettersOwnField | packages/dev/sharedUiComponents/src/fluent/primitives/accordion.contexts.tsx:75-79 | SET_SEARCH_TERM and SET_EDIT_MODE set their field and nothing else |
| Accordion.TogglePinnedEffect | packages/dev/sharedUiComponents/src/fluent/primitives/accordion.contexts.tsx:81-87 | TOGGLE_PINNED appends an absent id and removes a present one, leaving every other id |
| Accordion.ToggleHiddenEffect | packages/dev/sharedUiComponents/src/fluent/primitives/accordion.contexts.tsx:89-95 | TOGGLE_HIDDEN does the same on the hidden list |
| Accordion.ToggleTwice | packages/dev/sharedUiComponents/src/fluent/primitives/accordion.contexts.tsx:81-95 | toggling an absent id twice restores the state |
| Accordion.MovePinnedUpEffect | packages/dev/sharedUiComponents/src/fluent/primitives/accordion.contexts.tsx:97-105 | MOVE_PINNED_UP leaves an absent or first id alone and otherwise swaps it with its predecessor, keeping length and contents |
| Accordion.RemoveStaleEffect | packages/dev/sharedUiComponents/src/fluent/primitives/accordion.contexts.tsx:107-114 | REMOVE_STALE_IDS keeps exactly the active ids in order, and returns the same state when nothing is stale |
| Accordion.ShowAllEffect | packages/dev/sharedUiComponents/src/fluent/primitives/accordion.contexts.tsx:116-117 | SHOW_ALL empties the hidden list and only it |
| Accordion.HideAllVisibleEffect | packages/dev/sharedUiComponents/src/fluent/primitives/accordion.contexts.tsx:119-123 | HIDE_ALL_VISIBLE hides the union of hidden and visible ids without duplicates, previously hidden ones first |
| Accordion.FeaturesOf | packages/dev/sharedUiComponents/src/fluent/primitives/accordion.contexts.tsx:162-169 | each feature is on only when its prop is true |
| Accordion.InitialState | packages/dev/sharedUiComponents/src/fluent/primitives/accordion.contexts.tsx:174-184 | without an id or any feature both lists are empty; otherwise each list is read from storage only when its feature is on; search is empty and edit mode off |
| Accordion.MakeContext | packages/dev/sharedUiComponents/src/fluent/primitives/accordion.contexts.tsx:212-224 | there is no context without an id or without a feature, and otherwise it carries the id, state and features |
| Accordion.ItemUniqueId | packages/dev/sharedUiComponents/src/fluent/primitives/accordion.contexts.tsx:316-321 | inside an accordion and a section the unique id is the section prefix accordion/section/ followed by exactly the item id; outside either it is empty |
| Accordion.ItemUniqueIdInjective | packages/dev/sharedUiComponents/src/fluent/primitives/accordion.contexts.tsx:320 | within one section of one accordion, distinct item ids give distinct unique ids |
| Accordion.DeriveItemState | packages/dev/sharedUiComponents/src/fluent/primitives/accordion.contexts.tsx:353-386 | there is an item state exactly when there is an accordion and the item is not static |
| Accordion.CanMoveUpIff | packages/dev/sharedUiComponents/src/fluent/primitives/accordion.contexts.tsx:362-366 | an item can move up exactly when it is pinned and not first, and then moving it up moves it one place |
| Accordion.ItemMatchIff | packages/dev/sharedUiComponents/src/fluent/primitives/accordion.contexts.tsx:369-370 | the item match is exactly: search off, empty term, or label (else id) containing the term ignoring case |
| Accordion.Registry.constructor | packages/dev/sharedUiComponents/src/fluent/primitives/accordion.contexts.tsx:190 | the registry starts empty |
| Accordion.Registry.Get | packages/dev/sharedUiComponents/src/fluent/primitives/accordion.contexts.tsx:341 | an id has a label exactly when it is registered |
| Accordion.Registry.Register | packages/dev/sharedUiComponents/src/fluent/primitives/accordion.contexts.tsx:336-351 | the id is bound to its label, the duplicate warning fires exactly when it was already registered, a new id goes last, a known id is rebound in its own place, and every other binding is kept |
| Accordion.Registry.Unregister | packages/dev/sharedUiComponents/src/fluent/primitives/accordion.contexts.tsx:348-350 | the id is forgotten and every other binding kept |
| Accordion.IsSectionEmpty | packages/dev/sharedUiComponents/src/fluent/primitives/accordion.contexts.tsx:395-428 | the scan with early return computes the section-empty predicate as written |
| Accordion.ItemAgreesWithEntry | packages/dev/sharedUiComponents/src/fluent/primitives/accordion.contexts.tsx:347 | an item is shown by its own flags exactly when its registry entry is shown |
| Accordion.SectionEmptyIff | packages/dev/sharedUiComponents/src/fluent/primitives/accordion.contexts.tsx:389-428 | a section is empty exactly when not in edit mode, it has an item, and no item is shown |
| Accordion.SectionEmptyAgrees | packages/dev/sharedUiComponents/src/fluent/primitives/accordion.contexts.tsx:419 | when no label is empty the code's view of section emptiness equals the items' own view |
| Accordion.EmptyLabelDisagreement | packages/dev/sharedUiComponents/src/fluent/primitives/accordion.contexts.tsx:347 | with an empty label the item does not match, yet its section is reported as not empty |
| GizmoService.LiveDispose | packages/dev/inspector-v2/src/services/gizmoService.ts:69-72 | disposing one live reference lowers exactly its own object's count, by one |
| GizmoService.LiveZero | packages/dev/inspector-v2/src/services/gizmoService.ts:73-75 | when the count is zero no undisposed reference to that object is left |
| GizmoService.AcquireLayer | packages/dev/inspector-v2/src/services/gizmoService.ts:51-83 | after getUtilityLayer the key has a layer, and exactly one new undisposed reference to that layer is handed out (the count effects are AcquireLayerEffect) |
| GizmoService.ReleaseLayer | packages/dev/inspector-v2/src/services/gizmoService.ts:69-81 | a dispose marks that reference disposed and leaves every other reference as it was (the count effects are ReleaseLayerEffect) |
| GizmoService.AcquireLayerEffect | packages/dev/inspector-v2/src/services/gizmoService.ts:51-83 | a request finds or creates the key's layer, raises its count by one, and no other key changes |
| GizmoService.AcquireLayerOk | packages/dev/inspector-v2/src/services/gizmoService.ts:49-83 | requests keep the invariant: one shared layer per (scene, name), counted by its live references, and no empty scene map |
| GizmoService.ReleaseLayerIdempotent | packages/dev/inspector-v2/src/services/gizmoService.ts:66-71 | disposing a reference twice equals disposing it once |
| GizmoService.ReleaseLayerEffect | packages/dev/inspector-v2/src/services/gizmoService.ts:69-81 | the first dispose lowers the count by one, and at zero drops the entry and the emptied scene map |
| GizmoService.ReleaseLayerOk | packages/dev/inspector-v2/src/services/gizmoService.ts:69-81 | disposing a reference keeps the invariant |
| GizmoService.AcquireGizmo | packages/dev/inspector-v2/src/services/gizmoService.ts:86-127 | getGizmo hands out exactly one new gizmo reference and never drops a layer reference (the count effects are AcquireGizmoEffect) |
| GizmoService.ReleaseGizmo | packages/dev/inspector-v2/src/services/gizmoService.ts:116-125 | a dispose marks that gizmo reference disposed and keeps the number of references of both kinds (the count effects are ReleaseGizmoEffect) |
| GizmoService.AcquireGizmoEffect | packages/dev/inspector-v2/src/services/gizmoService.ts:93-111 | a request raises the node's gizmo count by one; a new gizmo has a fresh identity and a default-layer reference; no other node changes |
| GizmoService.AcquireGizmoOk | packages/dev/inspector-v2/src/services/gizmoService.ts:86-127 | requests keep both registries' invariants |
| GizmoService.ReleaseGizmoIdempotent | packages/dev/inspector-v2/src/services/gizmoService.ts:113-118 | disposing a gizmo reference twice equals disposing it once |
| GizmoService.ReleaseGizmoEffect | packages/dev/inspector-v2/src/services/gizmoService.ts:116-125 | the first dispose lowers the count; at zero the gizmo is disposed, removed, and its layer reference released, keeping both invariants |
| GizmoService.ReleaseGizmoOk | packages/dev/inspector-v2/src/services/gizmoService.ts:101-125 | disposing a gizmo reference keeps both invariants |
| GizmoService.GizmosOf | packages/dev/inspector-v2/src/services/gizmoService.ts:283-284 | the gizmos listed for a scene are exactly those of its nodes that have one (their order is GizmosOfConcat) |
| GizmoService.GizmosOfConcat | packages/dev/inspector-v2/src/services/gizmoService.ts:283-284 | the list follows the scene's node order: the gizmos of a concatenation of nodes are those of each part in turn |
| GizmoService.GizmosOfSingle | packages/dev/inspector-v2/src/services/gizmoService.ts:283-284 | a single node contributes its gizmo if it has one, and nothing otherwise |
| GizmoService.NodeDisposal | packages/dev/inspector-v2/src/services/gizmoService.ts:99-105 | a node's disposal leaves the gizmo entry, its count and the references as they were, and releases the gizmo's layer reference when the observer still fires |
| GizmoService.NodeDisposalEffect | packages/dev/inspector-v2/src/services/gizmoService.ts:99-105 | the node's disposal keeps both invariants, disposes the gizmo once and releases exactly its layer reference; a second disposal changes nothing |
| GizmoService.NodeDisposedStale | packages/dev/inspector-v2/src/services/gizmoService.ts:93-111 | after the node's disposal a request hands out a live reference to the gizmo already disposed and takes no layer reference |
| GizmoService.NodeDisposedTwice | packages/dev/inspector-v2/src/services/gizmoService.ts:116-125 | after the node's disposal the dispose of the last reference disposes the gizmo a second time and leaves the layer registry as it is |
| GizmoService.DropHeld | packages/dev/inspector-v2/src/services/gizmoService.ts:192-193 | dropping the held reference keeps both reference counts and marks the held reference disposed |
| GizmoService.HeldKey | packages/dev/inspector-v2/src/services/gizmoService.ts:202-214 | a gizmo is taken exactly when a mode is set and a camera or light is selected |
| GizmoService.TakeHeld | packages/dev/inspector-v2/src/services/gizmoService.ts:202-214 | taking the selection's gizmo adds exactly one reference, to that node's gizmo, when one is taken, and keeps every earlier reference |
| GizmoService.SyncRegistries | packages/dev/inspector-v2/src/services/gizmoService.ts:191-214 | after a sync the held reference is disposed, and one reference is added exactly when there is a manager and a camera or light gizmo is taken |
| GizmoService.SyncHeld | packages/dev/inspector-v2/src/services/gizmoService.ts:204-210 | the reference held after a sync exists exactly when one was taken, and is the newest one |
| GizmoService.SyncManager | packages/dev/inspector-v2/src/services/gizmoService.ts:216-256 | a synced manager has exactly the flag of the resolved mode on, follows it in its attachment, and keeps its layer references and coordinates mode |
| GizmoService.DestroyRegistries | packages/dev/inspector-v2/src/services/gizmoService.ts:179-189 | destroying the manager disposes the held reference and both of the manager's layer references, and keeps the number of references |
| GizmoService.ResolveMode | packages/dev/inspector-v2/src/services/gizmoService.ts:216-237 | no mode without an entity; translate, rotate and scale survive exactly when the entity has position, rotation or scaling; bounding box exactly when it is a mesh |
| GizmoService.EnabledFor | packages/dev/inspector-v2/src/services/gizmoService.ts:239-242 | each enable flag is on exactly when the resolved mode is its mode |
| GizmoService.ExactlyOneEnabled | packages/dev/inspector-v2/src/services/gizmoService.ts:239-242 | exactly one flag is on when a mode is resolved and none otherwise |
| GizmoService.AttachFor | packages/dev/inspector-v2/src/services/gizmoService.ts:248-256 | without a mode the manager is detached; with a mode and a mesh it is attached to that mesh |
| GizmoService.Resolved | packages/dev/inspector-v2/src/services/gizmoService.ts:199-214 | without a mode the resolved entity is the selection itself, and nothing without a selection |
| GizmoService.Service.constructor | packages/dev/inspector-v2/src/services/gizmoService.ts:136-146 | the service starts with no mode, local coordinates, no manager, no held gizmo and both registries empty |
| GizmoService.Service.GetUtilityLayer | packages/dev/inspector-v2/src/services/gizmoService.ts:51-83 | the layer registry takes one request and the reference handed out is the new last one |
| GizmoService.Service.DisposeLayerRef | packages/dev/inspector-v2/src/services/gizmoService.ts:69-81 | the layer registry takes one dispose and keeps its invariant |
| GizmoService.Service.GetGizmo | packages/dev/inspector-v2/src/services/gizmoService.ts:129-133 | getCameraGizmo and getLightGizmo take one gizmo request |
| GizmoService.Service.DisposeGizmoRef | packages/dev/inspector-v2/src/services/gizmoService.ts:116-125 | one gizmo dispose, keeping both invariants |
| GizmoService.Service.NodeDisposed | packages/dev/inspector-v2/src/services/gizmoService.ts:99-105 | a node's disposal acts on the registries exactly as NodeDisposal and keeps every invariant |
| GizmoService.Service.DropVisualization | packages/dev/inspector-v2/src/services/gizmoService.ts:192-193 | the held visualization gizmo reference, if any, is disposed and forgotten |
| GizmoService.Service.HoldVisualization | packages/dev/inspector-v2/src/services/gizmoService.ts:204-210 | a new live reference to the node's camera or light gizmo is taken and held as the newest reference |
| GizmoService.Service.Sync | packages/dev/inspector-v2/src/services/gizmoService.ts:191-257 | the held gizmo reference is disposed; with a manager a camera or light gizmo is requested and held exactly when a mode is set and one is selected, exactly the flag of the resolved mode is on and the attachment follows it; the registries are exactly SyncRegistries and the manager exactly SyncManager of the old state |
| GizmoService.Service.HoldForSelection | packages/dev/inspector-v2/src/services/gizmoService.ts:202-214 | with a mode set a selected camera or light has a new reference to its gizmo taken and held, and nothing else changes the registries |
| GizmoService.Service.ApplyMode | packages/dev/inspector-v2/src/services/gizmoService.ts:216-256 | the manager's flags and attachment follow the resolved mode |
| GizmoService.Service.SetGizmoMode | packages/dev/inspector-v2/src/services/gizmoService.ts:289-295 | a different mode is stored, announced once and applied as a sync with that mode (registries, held reference and manager); the same mode changes nothing |
| GizmoService.Service.SetCoordinatesMode | packages/dev/inspector-v2/src/services/gizmoService.ts:301-309 | a different mode is stored, passed to the manager and announced once; the same mode changes nothing |
| GizmoService.Service.ManagerCoordinatesSet | packages/dev/inspector-v2/src/services/gizmoService.ts:165-174 | a mode set on the manager is kept by it, and stored and announced only when it differs from the service's |
| GizmoService.Service.Dispose | packages/dev/inspector-v2/src/services/gizmoService.ts:312-318 | disposing the service disposes the held gizmo reference and the manager's two layer references, exactly as DestroyRegistries |
| GizmoService.Service.DestroyManager | packages/dev/inspector-v2/src/services/gizmoService.ts:179-189 | the held gizmo reference is disposed, then the manager's default and keepDepth layer references; the registries are exactly DestroyRegistries of the old state |
| GizmoService.Service.ReleaseManager | packages/dev/inspector-v2/src/services/gizmoService.ts:156-163 | the manager's dispose disposes both of its layer references |
| GizmoService.Service.CreateManager | packages/dev/inspector-v2/src/services/gizmoService.ts:148-177 | the old manager and held gizmo are destroyed, then two layer requests; the new manager is detached with no flag on, the service's coordinates mode and live references to the scene's default and keepDepth layers |
| GizmoService.Service.InstallManager | packages/dev/inspector-v2/src/services/gizmoService.ts:151-165 | the new manager starts detached, with no flag on, after two layer requests |
| GizmoService.Service.SceneChanged | packages/dev/inspector-v2/src/services/gizmoService.ts:260-266 | the manager is destroyed; with a new scene a detached manager with fresh default and keepDepth references is created and synced, giving exactly the SyncManager state and the registries after TakeHeld; without one there is no manager |
| GizmoService.Service.ActivateScene | packages/dev/inspector-v2/src/services/gizmoService.ts:262-265 | with no manager before, a detached manager with fresh default and keepDepth references is created and synced: the manager is exactly SyncManager of it, the registries are the two layer requests followed by TakeHeld, and the held reference is SyncHeld |
| SpinButton.CoerceStep | packages/dev/sharedUiComponents/src/fluent/primitives/spinButton.tsx:11-23 | with Alt the step is a tenth of the given one, with Shift alone ten times it, and otherwise the same |
| SpinButton.CoerceStepOrder | packages/dev/sharedUiComponents/src/fluent/primitives/spinButton.tsx:11-23 | a positive step stays positive, and Alt gives a smaller step than none, which is smaller than Shift |
| SpinButton.Precision | packages/dev/sharedUiComponents/src/fluent/primitives/spinButton.tsx:58 | the display precision lies in [0, 4] and equals the calculated one when that is in range |
| SpinButton.ValidateValue | packages/dev/sharedUiComponents/src/fluent/primitives/spinButton.tsx:67-73 | a value is valid exactly when it is within the given bounds, accepted by a given validator, not NaN, and an integer under forceInt |
| SpinButton.ValidInBounds | packages/dev/sharedUiComponents/src/fluent/primitives/spinButton.tsx:67-73 | a valid value is a number within the given bounds, finite under forceInt |
| SpinButton.CommitOnce | packages/dev/sharedUiComponents/src/fluent/primitives/spinButton.tsx:75-81 | a committed value becomes the last committed value, so committing it again does nothing |
| SpinButton.CommitNewValue | packages/dev/sharedUiComponents/src/fluent/primitives/spinButton.tsx:75-81 | a value different from the last committed one is committed exactly when it is valid |
| SpinButton.NaNNeverCommitted | packages/dev/sharedUiComponents/src/fluent/primitives/spinButton.tsx:67-81 | a NaN value is never committed, whatever the props |
| SpinButton.SpinButtonState.constructor | packages/dev/sharedUiComponents/src/fluent/primitives/spinButton.tsx:45-54 | the local and last committed values start as the props value, with no modifier held and nothing reported |
| SpinButton.SpinButtonState.PropValueChanged | packages/dev/sharedUiComponents/src/fluent/primitives/spinButton.tsx:60-65 | a props value different from the last committed one replaces both the local and the last committed value; an equal one changes nothing |
| SpinButton.SpinButtonState.TryCommit | packages/dev/sharedUiComponents/src/fluent/primitives/spinButton.tsx:75-81 | a valid value different from the last committed one becomes the last committed and is reported once; otherwise nothing changes |
| SpinButton.SpinButtonState.HandleChange | packages/dev/sharedUiComponents/src/fluent/primitives/spinButton.tsx:83-89 | a missing or NaN value is ignored; otherwise it becomes the local value, and exactly when it should be committed it is reported and becomes the last committed value, which is otherwise kept |
| SpinButton.SpinButtonState.KeyDown | packages/dev/sharedUiComponents/src/fluent/primitives/spinButton.tsx:91-99 | pressing Alt or Shift while focused sets its flag, and nothing else changes |
| SpinButton.SpinButtonState.KeyUp | packages/dev/sharedUiComponents/src/fluent/primitives/spinButton.tsx:101-125 | Enter changes nothing; any other key clears the flag of a released Alt or Shift, and the evaluated text becomes the local value; exactly when it should be committed it is reported and becomes the last committed value, which is otherwise kept |
| LottieConfig.Full | packages/dev/lottiePlayer/src/animationConfiguration.ts:86-89 | a configuration given in full comes out of the merge over the defaults unchanged |
| LottieConfig.MergeEmpty | packages/dev/lottiePlayer/src/animationConfiguration.ts:86-89 | merging a configuration that gives no field yields the base |
| LottieConfig.SystemDpr | packages/dev/lottiePlayer/src/animationConfiguration.ts:101 | the system pixel ratio is the main thread's when given, else the window's when there is a window, else 1 |
| LottieConfig.UpdateConfiguration | packages/dev/lottiePlayer/src/animationConfiguration.ts:85-107 | every field but the atlas size and pixel ratio is the merged one; an atlas with a zero dimension becomes min(maxTextureSize, 8192) square and any other is kept; a zero pixel ratio becomes max(system ratio, 4) for an 8192 atlas and max(system ratio, 2) otherwise, and any other is kept |
| LottieConfig.GivenFieldsWin | packages/dev/lottiePlayer/src/animationConfiguration.ts:64-75 | each of the seven plain fields is the given value, or its default when absent |
| LottieConfig.DefaultsResolved | packages/dev/lottiePlayer/src/animationConfiguration.ts:91-104 | with nothing given the atlas is min(maxTextureSize, 8192) square and the pixel ratio is at least 2, at least 4 when the GPU allows 8192, and at least the system ratio |
| LottieConfig.UpdateIdempotent | packages/dev/lottiePlayer/src/animationConfiguration.ts:85-107 | a finalised configuration given back in full comes out unchanged, whatever GPU and pixel ratios are reported then, when the first texture size was non-zero |
| LottieScale.Divide | packages/dev/lottiePlayer/src/rendering/calculateScaleFactor.ts:36-37 | a division by a non-zero size is the real quotient, and by zero it is NaN exactly for 0 / 0 |
| LottieScale.MathMin | packages/dev/lottiePlayer/src/rendering/calculateScaleFactor.ts:38 | Math.min is NaN exactly when an argument is, and otherwise one of them, below or equal to both |
| LottieScale.MathMax | packages/dev/lottiePlayer/src/rendering/calculateScaleFactor.ts:42 | Math.max is NaN exactly when an argument is, and otherwise one of them, above or equal to both |
| LottieScale.CalculateScaleFactors | packages/dev/lottiePlayer/src/rendering/calculateScaleFactor.ts:30-44 | without a dimension both scales are 1; with positive dimensions the canvas scale is finite, fits the animation in the container and touches one side; the atlas scale is at least 1, equals the canvas scale when that is at least 1 and is 1 otherwise, and is NaN exactly when the canvas scale is |
| LottieScale.CanvasScaleGreatest | packages/dev/lottiePlayer/src/rendering/calculateScaleFactor.ts:36-41 | no scale larger than the canvas scale fits the animation in the container |
| LottieScale.CanvasScaleNaN | packages/dev/lottiePlayer/src/rendering/calculateScaleFactor.ts:36-38 | the canvas scale is NaN exactly when an animation dimension and the matching container dimension are both 0 |
| LottieScale.LargerContainerScalesUp | packages/dev/lottiePlayer/src/rendering/calculateScaleFactor.ts:36-42 | a container at least as large as the animation gives a canvas scale of at least 1, and the atlas scale equals it |
| LottieController.Kept | packages/dev/lottiePlayer/src/rendering/animationController.ts:278-284 | a level never grows when childless non-shape nodes are removed |
| LottieController.KeptMembers | packages/dev/lottiePlayer/src/rendering/animationController.ts:280-283 | a node survives its level exactly when it is on that level and has children or is a shape |
| LottieController.PrunedLevel | packages/dev/lottiePlayer/src/rendering/animationController.ts:276-288 | pruning a level keeps the surviving nodes in order, each with its own children pruned |
| LottieController.ShapesSurvive | packages/dev/lottiePlayer/src/rendering/animationController.ts:280 | a shape node always survives its level |
| LottieController.PrunedNotIdempotent | packages/dev/lottiePlayer/src/rendering/animationController.ts:280-286 | a node is examined before its children are pruned, so a node left childless survives one pass and is removed only by a second |
| LottieController.CleanTree | packages/dev/lottiePlayer/src/rendering/animationController.ts:276-288 | the splicing index loop, recursing into kept nodes, computes the pruned tree |
| LottieController.Remainder | packages/dev/lottiePlayer/src/rendering/animationController.ts:342 | the JavaScript remainder is NaN for a zero divisor or a non-finite dividend, and lies in [0, y) for a non-negative dividend and a positive divisor |
| LottieController.AdvanceNoWholeFrame | packages/dev/lottiePlayer/src/rendering/animationController.ts:324-329 | when no whole frame elapsed the frame stays, nothing is drawn, and the time is kept accumulated |
| LottieController.AdvanceTakesWholeFrames | packages/dev/lottiePlayer/src/rendering/animationController.ts:324-333 | when whole frames elapsed the accumulated time drops by exactly that many frame durations, leaves a remainder in [0, one frame), and a frame drawn in range is the old one plus those frames |
| LottieController.AdvanceBelowOneFrame | packages/dev/lottiePlayer/src/rendering/animationController.ts:324-333 | after any step less than one frame duration stays accumulated |
| LottieController.AdvanceClamps | packages/dev/lottiePlayer/src/rendering/animationController.ts:340-351 | without looping a frame past the end is clamped to the end frame, drawn, and playing stops after it |
| LottieController.AdvanceWraps | packages/dev/lottiePlayer/src/rendering/animationController.ts:341-345 | with looping and 0 <= start < end a finite frame past the end wraps into [start, end), is drawn and the nodes are reset |
| LottieController.AdvanceEmptyRangeLoop | packages/dev/lottiePlayer/src/rendering/animationController.ts:342 | looping over an empty frame range turns a frame past the end into NaN |
| LottieController.AdvanceInRange | packages/dev/lottiePlayer/src/rendering/animationController.ts:335-355 | a finite frame drawn without wrapping or clamping lies in [start, end] |
| LottieController.FrameDelta | packages/dev/lottiePlayer/src/rendering/animationController.ts:298-303 | the first callback measures no elapsed time and later ones the time since the last frame time |
| LottieController.ReplayJumpsToEnd | packages/dev/lottiePlayer/src/rendering/animationController.ts:171-184 | replaying ten seconds after page load, a 60-frame 30 fps animation jumps in one step to its last frame and stops |
| LottieController.ResyncedReplayStartsAtZero | packages/dev/lottiePlayer/src/rendering/animationController.ts:298-303 | with the clock synchronised on play, the first step takes no frame and stays at frame 0 |
| LottieController.StepClock | packages/dev/lottiePlayer/src/rendering/animationController.ts:323-351 | the step-by-step arithmetic with early returns computes exactly the frame-clock step |
| LottieController.AnimationController.constructor | packages/dev/lottiePlayer/src/rendering/animationController.ts:91-166 | the configuration is finalised from the given one, looping is taken from it, the frame duration is one frame at the animation's rate, the node tree is pruned, the back buffer sized to the animation, and the clock starts at frame 0, stopped, with the first-run flag set |
| LottieController.AnimationController.StartRenderLoop | packages/dev/lottiePlayer/src/rendering/animationController.ts:290-295 | while playing exactly one animation frame is requested and its id kept; otherwise nothing |
| LottieController.AnimationController.Play | packages/dev/lottiePlayer/src/rendering/animationController.ts:171-184 | without an animation or before ready nothing changes; otherwise the clock restarts at frame 0 with nothing accumulated, playing, last frame time 0, and one frame requested |
| LottieController.AnimationController.PlayResynced | packages/dev/lottiePlayer/src/rendering/animationController.ts:171-184 | as playing, and the first callback afterwards measures no elapsed time |
| LottieController.AnimationController.Stop | packages/dev/lottiePlayer/src/rendering/animationController.ts:189-197 | nothing stays accumulated, playing stops, and a pending animation frame is cancelled and forgotten |
| LottieController.AnimationController.SetSize | packages/dev/lottiePlayer/src/rendering/animationController.ts:242-270 | the back buffer is the size times the scale times the pixel ratio, and a stopped animation is drawn again |
| LottieController.AnimationController.SetScale | packages/dev/lottiePlayer/src/rendering/animationController.ts:204-211 | a non-positive scale or a missing animation changes nothing; otherwise the canvas scale is replaced and the back buffer resized to the animation at that scale |
| LottieController.AnimationController.Render | packages/dev/lottiePlayer/src/rendering/animationController.ts:316-363 | one render changes the clock and the drawing exactly as one frame-clock step, and only while playing an animation |
| LottieController.AnimationController.ApplyTick | packages/dev/lottiePlayer/src/rendering/animationController.ts:331-362 | the clock takes the step's values, a wrap resets the nodes, a drawn frame updates them and renders, a clamped last frame stops playing, and less than a frame stays accumulated |
| LottieController.AnimationController.OnAnimationFrame | packages/dev/lottiePlayer/src/rendering/animationController.ts:295-313 | the callback measures the elapsed time (none on the first run), takes one render step, records the time after rendering, and requests another frame exactly while still playing |
| XmlFormat.ClampInt | packages/dev/serializers/src/3MF/core/xml/xml.serializer.format.ts:122-128 | the result lies in [min, max]: min for a non-finite input, otherwise the truncated value clamped |
| XmlFormat.EpsDecimals | packages/dev/serializers/src/3MF/core/xml/xml.serializer.format.ts:88 | the decimals of eps are at most the cap, and are the least k with 10^-k <= eps, so one fewer would be too coarse |
| XmlFormat.Decimals | packages/dev/serializers/src/3MF/core/xml/xml.serializer.format.ts:82-89 | the number of decimals never exceeds 20 |
| XmlFormat.FormatNumberXml | packages/dev/serializers/src/3MF/core/xml/xml.serializer.format.ts:55-120 | a non-finite value or an eps that is not finite and positive is an error; with at least one decimal no output holds an exponent |
| XmlFormat.FormatNumberXmlIntended | packages/dev/serializers/src/3MF/core/xml/xml.serializer.format.ts:55-120 | as written, with errors for the same inputs, but no output ever holds an exponent |
| XmlFormat.FormatNumber | packages/dev/serializers/src/3MF/core/model/3mf.ts:63-70 | the number formatter a matrix formatter builds from its options: a non-finite value is an error and no text it produces holds an exponent |
| XmlFormat.IntendedAgrees | packages/dev/serializers/src/3MF/core/xml/xml.serializer.format.ts:98-117 | with at least one decimal and decimals fine enough for the eps grid, the formatter as written and the intended one give the same result for every value |
| XmlFormat.DefaultDecimals | packages/dev/serializers/src/3MF/core/xml/xml.serializer.format.ts:64-92 | the default options (eps 1e-6, cap 15) give six decimals, and 10^-6 <= eps |
| XmlFormat.FormatNumberDefaults | packages/dev/serializers/src/3MF/core/xml/xml.serializer.format.ts:55-120 | under the default options the serializer's matrix formatting gives exactly what FormatNumberXml as written gives, for every value |
| XmlFormat.DropSubUnit | packages/dev/serializers/src/3MF/core/xml/xml.serializer.format.ts:72-75 | a value toFixed rounds to zero is replaced by zero, and any other value is kept |
| XmlFormat.FixedParts | packages/dev/serializers/src/3MF/core/xml/xml.serializer.format.ts:104 | toFixed writes at least one integer digit and exactly the asked number of fractional digits |
| XmlFormat.FixedPartsValue | packages/dev/serializers/src/3MF/core/xml/xml.serializer.format.ts:104 | the digits toFixed writes denote exactly the value rounded to the asked decimals |
| XmlFormat.TrimEnd0 | packages/dev/serializers/src/3MF/core/xml/xml.serializer.format.ts:108-111 | trimming drops only trailing zeros and leaves no trailing zero |
| XmlFormat.TrimFractionShape | packages/dev/serializers/src/3MF/core/xml/xml.serializer.format.ts:106-112 | the three trimming expressions keep the integer part and the fraction up to its last non-zero digit, and drop an all-zero fraction with its point |
| XmlFormat.TrimZeroFraction | packages/dev/serializers/src/3MF/core/xml/xml.serializer.format.ts:110-111 | a fraction made of zeros goes, with its point |
| XmlFormat.TrimNonZeroFraction | packages/dev/serializers/src/3MF/core/xml/xml.serializer.format.ts:109 | a fraction with a non-zero digit keeps its point and its digits up to the last non-zero one |
| XmlFormat.TrimEnd0Value | packages/dev/serializers/src/3MF/core/xml/xml.serializer.format.ts:108-111 | dropping trailing fractional zeros keeps the value the fraction denotes |
| XmlFormat.RenderShape | packages/dev/serializers/src/3MF/core/xml/xml.serializer.format.ts:103-112 | below 1e21 with decimals the text is the sign, the integer digits and the (trimmed) fraction of the rounded value |
| XmlFormat.FixedTextShape | packages/dev/serializers/src/3MF/core/xml/xml.serializer.format.ts:104 | below 1e21 toFixed writes the sign, the integer digits, a point and exactly that many fractional digits |
| XmlFormat.RenderSign | packages/dev/serializers/src/3MF/core/xml/xml.serializer.format.ts:103-112 | below 1e21 with decimals only a negative value gets a leading '-' |
| XmlFormat.IntendedHasNoNegativeZero | packages/dev/serializers/src/3MF/core/xml/xml.serializer.format.ts:72-75 | the intended formatter writes a leading '-' only for a value that does not round to zero |
| XmlFormat.ExponentEscapesGuard | packages/dev/serializers/src/3MF/core/xml/xml.serializer.format.ts:98-117 | with no decimals every power of ten from 1e21 on that survives snapping comes out in exponent form, past the exponent guard |
| XmlFormat.ExponentInputs | packages/dev/serializers/src/3MF/core/xml/xml.serializer.format.ts:63-89 | eps = 1 gives no decimals, and the powers of ten from 1e21 on pass quantisation and snapping unchanged |
| XmlFormat.ExponentTextOfPow10 | packages/dev/serializers/src/3MF/core/xml/xml.serializer.format.ts:100 | String writes 10^k as "1e+k" from 1e21 on |
| XmlFormat.ZeroRender | packages/dev/serializers/src/3MF/core/xml/xml.serializer.format.ts:104-112 | with trimming, a value that rounds to zero is written as its sign and "0" |
| XmlFormat.NegativeZeroText | packages/dev/serializers/src/3MF/core/xml/xml.serializer.format.ts:72-112 | a negative value that survives snapping but rounds to zero at the chosen decimals is written "-0" |
| XmlFormat.NegativeZeroTextIntended | packages/dev/serializers/src/3MF/core/xml/xml.serializer.format.ts:72-112 | the intended formatter writes those values as "0" |
| XmlFormat.NegativeZeroInputs | packages/dev/serializers/src/3MF/core/xml/xml.serializer.format.ts:63-89 | eps 0.001 with a cap of two decimals and the grid values -0.004 to -0.002 are such inputs |
| XmlInterfaces.NcNameHasNoColon | packages/dev/serializers/src/3MF/core/xml/xml.interfaces.ts:116-120 | a string accepted as an NCName never holds the prefix separator ':' |
| XmlInterfaces.ToQualifiedString | packages/dev/serializers/src/3MF/core/xml/xml.interfaces.ts:161-163 | a non-empty prefix gives "prefix:name"; an absent or empty prefix gives the name alone |
| XmlInterfaces.SplitNameShape | packages/dev/serializers/src/3MF/core/xml/xml.interfaces.ts:131-153 | a name split into parts has an NCName prefix and an NCName local part that rejoin with ':' to the input; a name left whole is the input itself |
| XmlInterfaces.XmlNameToPartsShape | packages/dev/serializers/src/3MF/core/xml/xml.interfaces.ts:127-153 | for a string name, the same holds of the trimmed string: split parts are NCNames rejoining to it, otherwise the name is the trimmed string |
| XmlInterfaces.SplitNameSplits | packages/dev/serializers/src/3MF/core/xml/xml.interfaces.ts:136-151 | a prefix is found exactly when the string has a colon with an NCName on each side of it |
| XmlInterfaces.XmlNameToPartsSplits | packages/dev/serializers/src/3MF/core/xml/xml.interfaces.ts:127-153 | a string name yields a prefix exactly when its trimmed text is "NCName:NCName" |
| XmlInterfaces.AddXmlMeta | packages/dev/serializers/src/3MF/core/xml/xml.interfaces.ts:52-55 | the class's descriptor list gains the descriptor at its end; its element name and every other class are unchanged |
| XmlInterfaces.SetXmlName | packages/dev/serializers/src/3MF/core/xml/xml.interfaces.ts:61-65 | the class's element name becomes the given one; its descriptors and every other class are unchanged |
| XmlInterfaces.XmlIgnore | packages/dev/serializers/src/3MF/core/xml/xml.interfaces.ts:71-73 | the descriptor names the property, is ignored and of kind none |
| XmlInterfaces.XmlAttr | packages/dev/serializers/src/3MF/core/xml/xml.interfaces.ts:79-81 | the descriptor names the property, is an attribute, not ignored, and carries the given name and formatter |
| XmlInterfaces.XmlElem | packages/dev/serializers/src/3MF/core/xml/xml.interfaces.ts:88-90 | the descriptor names the property, is an element, not ignored, and carries the given name; the serializer writes nothing for such a property (ElementOnlyFieldSilent) |
| XmlInterfaces.GetXmlFieldMeta | packages/dev/serializers/src/3MF/core/xml/xml.interfaces.ts:97-99 | a class instance gets its class's descriptors in registration order; anything else gets none |
| XmlInterfaces.GetXmlName | packages/dev/serializers/src/3MF/core/xml/xml.interfaces.ts:106-109 | a name is returned exactly when the value is an instance whose class has a non-empty element name, and it is that name |
| XmlInterfaces.MetasForMembers | packages/dev/serializers/src/3MF/core/xml/xml.serializer.ts:135-139 | the descriptors grouped under a property are exactly the registered descriptors naming it |
| XmlInterfaces.MetasForAbsent | packages/dev/serializers/src/3MF/core/xml/xml.serializer.ts:135-139 | a property no descriptor names has no group |
| XmlInterfaces.MetasForUnique | packages/dev/serializers/src/3MF/core/xml/xml.serializer.ts:135-139 | a property named by one descriptor has exactly that one in its group |
| XmlInterfaces.SomeDescriptor | packages/dev/serializers/src/3MF/core/xml/xml.serializer.ts:143-160 | a group counts as ignored exactly when one of its descriptors is ignored or of kind none, and as an attribute exactly when one is an attribute |
| XmlBuilding.WriteLog.constructor | packages/dev/serializers/src/3MF/core/xml/xml.builder.ts:5-15 | a fresh writer has received no write calls |
| XmlBuilding.WrittenAppend | packages/dev/serializers/src/3MF/core/xml/xml.builder.ts:5-15 | the text of two runs of write calls is the text of the first followed by that of the second |
| XmlBuilding.ReplaceAll | packages/dev/serializers/src/3MF/core/xml/xml.builder.ts:267-273 | replacing every occurrence of a character by a text free of it leaves no occurrence behind |
| XmlBuilding.ReplaceAllAppend | packages/dev/serializers/src/3MF/core/xml/xml.builder.ts:267-273 | a global replacement distributes over concatenation |
| XmlBuilding.ReplaceAllAbsent | packages/dev/serializers/src/3MF/core/xml/xml.builder.ts:267-273 | replacing a character that does not occur changes nothing |
| XmlBuilding.EscTextPerChar | packages/dev/serializers/src/3MF/core/xml/xml.builder.ts:267-269 | the chained text replacements equal escaping each character on its own: '&' first means no entity is escaped twice |
| XmlBuilding.EscAttrPerChar | packages/dev/serializers/src/3MF/core/xml/xml.builder.ts:271-273 | the chained attribute replacements equal escaping each character on its own, quotes included |
| XmlBuilding.EscapeRoundTrip | packages/dev/serializers/src/3MF/core/xml/xml.builder.ts:267-273 | escaped text and escaped attribute values read back, through the five predefined entities, as the original string |
| XmlBuilding.EscapedHasNoMarkup | packages/dev/serializers/src/3MF/core/xml/xml.builder.ts:267-273 | escaped text holds no '<' or '>'; an escaped attribute value holds no '<', '>', '"' or "'" |
| XmlBuilding.NewContext | packages/dev/serializers/src/3MF/core/xml/xml.builder.ts:64-92 | a new context has the given name and depth, an open start tag, no last token, no bindings and no default namespace |
| XmlBuilding.RegisterNamespace | packages/dev/serializers/src/3MF/core/xml/xml.builder.ts:287-303 | refused exactly for the prefixes xml and xmlns and for a prefix bound to another namespace; otherwise the prefix is bound to the namespace, the namespace keeps an existing prefix or gets this one, and nothing else in the context changes |
| XmlBuilding.NoRebinding | packages/dev/serializers/src/3MF/core/xml/xml.builder.ts:292-295 | once a prefix is bound to a non-empty namespace, binding it to a different namespace is refused |
| XmlBuilding.FirstPrefixKept | packages/dev/serializers/src/3MF/core/xml/xml.builder.ts:297-300 | a namespace registered under a second prefix keeps its first prefix |
| XmlBuilding.IsXmlnsDecl | packages/dev/serializers/src/3MF/core/xml/xml.builder.ts:275-285 | with a namespace, a declaration exactly when the namespace is xmlns; without, exactly when the name is xmlns or starts with "xmlns:" |
| XmlBuilding.FindLevel | packages/dev/serializers/src/3MF/core/xml/xml.builder.ts:253-265 | the level found binds the namespace and no inner level does; -1 means no level binds it |
| XmlBuilding.NsPrefixInjective | packages/dev/serializers/src/3MF/core/xml/xml.builder.ts:305-313 | distinct counters give distinct prefixes ns1, ns2, ... |
| XmlBuilding.TakenPrefixesBound | packages/dev/serializers/src/3MF/core/xml/xml.builder.ts:305-313 | a context can hold only as many taken prefixes ns1 .. ns(i-1) as it has bound prefixes, so the search ends |
| XmlBuilding.FreeIndex | packages/dev/serializers/src/3MF/core/xml/xml.builder.ts:305-313 | the counter found names an unbound prefix, and every smaller counter from 1 names a bound one |
| XmlBuilding.AttWriteText | packages/dev/serializers/src/3MF/core/xml/xml.builder.ts:249-251 | an attribute is written as space, name, '=', and the escaped value in double quotes |
| XmlBuilding.DecText | packages/dev/serializers/src/3MF/core/xml/xml.builder.ts:112-123 | a declaration with a version and a plain encoding reads as the XML 1.0 declaration with both pseudo-attributes |
| XmlBuilding.CloseOnce | packages/dev/serializers/src/3MF/core/xml/xml.builder.ts:334-339 | closing a start tag a second time writes nothing and changes nothing; only the top context is marked closed |
| XmlBuilding.AttSpec | packages/dev/serializers/src/3MF/core/xml/xml.builder.ts:132-175 | a refused attribute writes nothing; an accepted one needs an open element and changes only the top context |
| XmlBuilding.DeclSpec | packages/dev/serializers/src/3MF/core/xml/xml.builder.ts:141-161 | a refused declaration writes nothing; an accepted one changes only the top context |
| XmlBuilding.AttributeSpec | packages/dev/serializers/src/3MF/core/xml/xml.builder.ts:163-175 | an ordinary attribute on an open start tag is never refused and changes only the top context |
| XmlBuilding.AttErrors | packages/dev/serializers/src/3MF/core/xml/xml.builder.ts:132-161 | att() fails exactly without an element, after its start tag is closed, or when a namespace declaration is refused by registration |
| XmlBuilding.AttPrefixBound | packages/dev/serializers/src/3MF/core/xml/xml.builder.ts:163-175 | a namespaced attribute is written under a prefix that, afterwards, the element or an enclosing one binds to its namespace |
| XmlBuilding.SetTopSameBindings | packages/dev/serializers/src/3MF/core/xml/xml.builder.ts:253-265 | changing the top context without touching its namespace-to-prefix map leaves every prefix lookup unchanged |
| XmlBuilding.XmlBuilder.constructor | packages/dev/serializers/src/3MF/core/xml/xml.builder.ts:94-103 | a new builder has an empty stack and depth 0, and keeps its invariant |
| XmlBuilding.XmlBuilder.WriteAttStr | packages/dev/serializers/src/3MF/core/xml/xml.builder.ts:249-251 | exactly one attribute write is appended |
| XmlBuilding.XmlBuilder.Dec | packages/dev/serializers/src/3MF/core/xml/xml.builder.ts:112-123 | the declaration's writes are appended: version always, encoding when non-empty, standalone when given |
| XmlBuilding.XmlBuilder.LookupPrefix | packages/dev/serializers/src/3MF/core/xml/xml.builder.ts:253-265 | the result is the non-empty prefix bound by the innermost context binding the namespace, or none |
| XmlBuilding.XmlBuilder.AllocPrefix | packages/dev/serializers/src/3MF/core/xml/xml.builder.ts:305-313 | the result is ns<k> for the least k from 1 whose prefix the context has not bound |
| XmlBuilding.XmlBuilder.CloseOpenTag | packages/dev/serializers/src/3MF/core/xml/xml.builder.ts:334-339 | the top start tag is closed, and '>' is written only when it was open |
| XmlBuilding.XmlBuilder.Att | packages/dev/serializers/src/3MF/core/xml/xml.builder.ts:132-175 | the builder's new stack, writes and error are those of the att() specification, and the invariant holds |
| XmlBuilding.XmlBuilder.AttDecl | packages/dev/serializers/src/3MF/core/xml/xml.builder.ts:141-161 | a namespace declaration leaves the stack and writes the declaration specification gives |
| XmlBuilding.XmlBuilder.AttAttribute | packages/dev/serializers/src/3MF/core/xml/xml.builder.ts:163-175 | an ordinary attribute leaves the stack and writes the attribute specification gives |
| XmlBuilding.XmlBuilder.EnsurePrefixDeclared | packages/dev/serializers/src/3MF/core/xml/xml.builder.ts:315-332 | an existing prefix is returned with nothing changed; otherwise a fresh ns<k> is declared on the current element, registered, and returned |
| XmlBuilding.XmlBuilder.Ele | packages/dev/serializers/src/3MF/core/xml/xml.builder.ts:183-196 | the parent start tag is closed, a context with the qualified name and the next depth is pushed, and '<name' is written |
| XmlBuilding.XmlBuilder.Text | packages/dev/serializers/src/3MF/core/xml/xml.builder.ts:203-212 | without an element an error and no change; otherwise the start tag is closed and the escaped text written |
| XmlBuilding.XmlBuilder.End | packages/dev/serializers/src/3MF/core/xml/xml.builder.ts:218-229 | the top context is popped, writing '/>' if its start tag was open and '</name>' otherwise; with no element nothing happens |
| XmlBuilding.ElementTexts | packages/dev/serializers/src/3MF/core/xml/xml.builder.ts:183-229 | an element opened and ended at once reads '<name/>'; with text in between, '<name>text</name>' |
| XmlWriters.StringXmlWriter.constructor | packages/dev/serializers/src/3MF/core/xml/xml.builder.string.ts:4-7 | a new writer has no chunks and a zero count |
| XmlWriters.StringXmlWriter.Write | packages/dev/serializers/src/3MF/core/xml/xml.builder.string.ts:13-23 | no arguments change nothing; otherwise one chunk, the arguments joined, is added and the count grows by its UTF-16 length; the text grows by the joined arguments and the count stays its length |
| XmlWriters.StringXmlWriter.ToString | packages/dev/serializers/src/3MF/core/xml/xml.builder.string.ts:28-30 | the joined text's UTF-16 length is the running count |
| XmlWriters.StringXmlWriter.Clear | packages/dev/serializers/src/3MF/core/xml/xml.builder.string.ts:34-37 | no chunks, a zero count and an empty text |
| XmlWriters.ConcatBack | packages/dev/serializers/src/3MF/core/xml/xml.builder.string.ts:19-20 | joining chunks with one more at the end appends that chunk's text |
| XmlWriters.ByteSink.constructor | packages/dev/serializers/src/3MF/core/xml/xml.builder.bytes.ts:4-6 | a new sink has received no chunks |
| XmlWriters.BytesBack | packages/dev/serializers/src/3MF/core/xml/xml.builder.bytes.ts:4-6 | the bytes of the pushed chunks grow by the bytes of the chunk pushed last |
| XmlWriters.Utf8XmlWriterToBytes.constructor | packages/dev/serializers/src/3MF/core/xml/xml.builder.bytes.ts:9-19 | nothing pending, a zero count, and the sink holding exactly the UTF-8 of what was flushed (nothing) |
| XmlWriters.Utf8XmlWriterToBytes.Flush | packages/dev/serializers/src/3MF/core/xml/xml.builder.bytes.ts:49-62 | with nothing pending nothing happens; otherwise the UTF-8 of the pending text is pushed as one non-final chunk, the count grows by its byte length and nothing stays pending |
| XmlWriters.Utf8XmlWriterToBytes.Write | packages/dev/serializers/src/3MF/core/xml/xml.builder.bytes.ts:25-44 | an empty call changes nothing; otherwise the joined text is added to the pending text, which is flushed as one chunk once its UTF-16 length reaches the limit (64 Ki by default); pending text stays below the limit |
| XmlWriters.Utf8XmlWriterToBytes.AppendPending | packages/dev/serializers/src/3MF/core/xml/xml.builder.bytes.ts:35-36 | the pending text grows by the string and its counter stays its UTF-16 length |
| XmlWriters.Utf8XmlWriterToBytes.Finish | packages/dev/serializers/src/3MF/core/xml/xml.builder.bytes.ts:66-69 | any pending text is pushed, then an empty final chunk; the sink then holds exactly the UTF-8 of all accepted text |
| XmlWriters.Utf8XmlWriterToBytes.Clear | packages/dev/serializers/src/3MF/core/xml/xml.builder.bytes.ts:73-77 | pending text is dropped and the count reset; what the sink holds is untouched |
| XmlWriters.AcceptedBytes | packages/dev/serializers/src/3MF/core/xml/xml.builder.bytes.ts:25-62 | the bytes pushed followed by the encoding of the pending text are the UTF-8 encoding of all accepted text |
| XmlSerialization.NsGetFinds | packages/dev/serializers/src/3MF/core/xml/xml.serializer.ts:34 | looking a namespace up finds nothing exactly when no binding has it, and otherwise returns a value bound to it |
| XmlSerialization.NsSet | packages/dev/serializers/src/3MF/core/xml/xml.serializer.ts:273 | setting a new key appends the binding at the end (insertion order); afterwards the key maps to the value |
| XmlSerialization.NsNameInjective | packages/dev/serializers/src/3MF/core/xml/xml.serializer.ts:289 | distinct counters give distinct prefixes ns0, ns1, ... |
| XmlSerialization.NsNameNotDefault | packages/dev/serializers/src/3MF/core/xml/xml.serializer.ts:289 | no generated prefix is "xmlns" |
| XmlSerialization.ValuesBelow | packages/dev/serializers/src/3MF/core/xml/xml.serializer.ts:285-299 | in a table whose prefixes are ns0 .. ns(count-1), no value is ns(count) or later and no value is empty |
| XmlSerialization.Bind | packages/dev/serializers/src/3MF/core/xml/xml.serializer.ts:268-283 | a namespace already bound leaves the state unchanged |
| XmlSerialization.AssignAllAppend | packages/dev/serializers/src/3MF/core/xml/xml.serializer.ts:56-61 | assigning two lists of names in turn is assigning their concatenation |
| XmlSerialization.BindValid | packages/dev/serializers/src/3MF/core/xml/xml.serializer.ts:272-274 | binding keeps keys unique and lowercased and the prefixes ns0 .. ns(count-1) in order, keeps every earlier binding, and leaves the key bound |
| XmlSerialization.AssignValid | packages/dev/serializers/src/3MF/core/xml/xml.serializer.ts:268-283 | _assignNamespace keeps the namespace invariant and never removes or changes a binding |
| XmlSerialization.AssignAllValid | packages/dev/serializers/src/3MF/core/xml/xml.serializer.ts:56-61 | any sequence of assignments keeps the invariant and only adds bindings |
| XmlSerialization.AttrFields | packages/dev/serializers/src/3MF/core/xml/xml.serializer.ts:142-149 | the attribute properties are properties of the object, each with an attribute descriptor |
| XmlSerialization.OtherFields | packages/dev/serializers/src/3MF/core/xml/xml.serializer.ts:142-149 | the other properties are properties of the object, none with an attribute descriptor |
| XmlSerialization.PartitionMultiset | packages/dev/serializers/src/3MF/core/xml/xml.serializer.ts:142-149 | the attribute properties and the other properties together are the object's properties, each exactly once |
| XmlSerialization.AttrFirstSorted | packages/dev/serializers/src/3MF/core/xml/xml.serializer.ts:142-149 | the sorted keys are a permutation of the keys with every attribute property before every other property |
| XmlSerialization.ToVisit | packages/dev/serializers/src/3MF/core/xml/xml.serializer.ts:239-258 | the gathering walk only visits properties of the object |
| XmlSerialization.GetPrefix | packages/dev/serializers/src/3MF/core/xml/xml.serializer.ts:120-128 | a prefix is returned exactly when the name has a namespace bound to a prefix other than "xmlns", and it is that prefix |
| XmlSerialization.AttrValueCases | packages/dev/serializers/src/3MF/core/xml/xml.serializer.ts:169-177 | a number that does not format is an error even with a formatter; a missing formatter is an error; without a formatter, a number is written by the number formatter, a string as itself, a boolean as true or false, an array as `toString` gives it, and objects and nullish values are errors |
| XmlSerialization.NumberText | packages/dev/serializers/src/3MF/core/xml/xml.serializer.ts:176 | NaN and the infinities always have a text; a finite number has one only when it is an integer, and it is then the integer's decimal text |
| XmlSerialization.StringItemTexts | packages/dev/serializers/src/3MF/core/xml/xml.serializer.ts:176 | the item texts of an array of strings are the strings themselves, from any index on |
| XmlSerialization.StringArraySplits | packages/dev/serializers/src/3MF/core/xml/xml.serializer.ts:176 | an array of comma-free strings is written as a text whose split on commas gives the strings back |
| XmlSerialization.NestedArrayText | packages/dev/serializers/src/3MF/core/xml/xml.serializer.ts:176 | nested arrays flatten into one comma list |
| XmlSerialization.NullishItemsText | packages/dev/serializers/src/3MF/core/xml/xml.serializer.ts:176 | null and undefined items of an array are written as empty texts between the commas |
| XmlSerialization.AttrCall | packages/dev/serializers/src/3MF/core/xml/xml.serializer.ts:165-189 | a descriptor writes at most one call, an attribute; descriptors that are not attributes write nothing |
| XmlSerialization.AttrCalls | packages/dev/serializers/src/3MF/core/xml/xml.serializer.ts:165-190 | a property's descriptors write attribute calls only |
| XmlSerialization.WriteFieldsAppend | packages/dev/serializers/src/3MF/core/xml/xml.serializer.ts:152-201 | writing two runs of keys writes the first, then the second from where the first left the visited set; an error stops the walk |
| XmlSerialization.AttrFieldWritesAtts | packages/dev/serializers/src/3MF/core/xml/xml.serializer.ts:158-191 | a property with an attribute descriptor writes attributes only and visits no object |
| XmlSerialization.AttrFieldsWriteAtts | packages/dev/serializers/src/3MF/core/xml/xml.serializer.ts:152-191 | the attribute properties together write attributes only and visit no object |
| XmlSerialization.AttributesFirst | packages/dev/serializers/src/3MF/core/xml/xml.serializer.ts:141-201 | an object's content is the attribute calls of its attribute properties followed by what its other properties write, so no attribute follows a child element or text |
| XmlSerialization.ElementOnlyFieldSilent | packages/dev/serializers/src/3MF/core/xml/xml.serializer.ts:158-191 | a property whose descriptors include no attribute descriptor writes nothing and visits nothing |
| XmlSerialization.NoAttrNoCalls | packages/dev/serializers/src/3MF/core/xml/xml.serializer.ts:165-190 | descriptors without an attribute descriptor write no call |
| XmlSerialization.IndexMetas | packages/dev/serializers/src/3MF/core/xml/xml.serializer.ts:133-139 | each property with descriptors maps to exactly its descriptors in registration order, and no other property is indexed |
| XmlSerialization.NsDecls | packages/dev/serializers/src/3MF/core/xml/xml.serializer.ts:81-83 | one xmlns attribute per binding, in insertion order, carrying the binding's prefix and namespace |
| XmlSerialization.XmlSerializer.constructor | packages/dev/serializers/src/3MF/core/xml/xml.serializer.ts:45-49 | a new serializer has no bindings and a zero prefix counter, and keeps its invariant |
| XmlSerialization.XmlSerializer.WithNamespace | packages/dev/serializers/src/3MF/core/xml/xml.serializer.ts:56-61 | the namespaces of the names are bound in order as by AssignAll, keeping the invariant |
| XmlSerialization.XmlSerializer.BuildNsPrefix | packages/dev/serializers/src/3MF/core/xml/xml.serializer.ts:285-299 | the prefix is ns<count>, the counter grows by one, and no binding already uses the prefix, so the search never repeats |
| XmlSerialization.XmlSerializer.AssignNamespace | packages/dev/serializers/src/3MF/core/xml/xml.serializer.ts:268-283 | the state becomes the one Assign gives, keeping the invariant |
| XmlSerialization.XmlSerializer.BindFromTable | packages/dev/serializers/src/3MF/core/xml/xml.serializer.ts:272-274 | the state becomes the one Bind gives |
| XmlSerialization.XmlSerializer.GatherNamespaces | packages/dev/serializers/src/3MF/core/xml/xml.serializer.ts:205-266 | succeeds exactly when the gathering walk does, binds the namespaces of the names the walk meets in walk order, and returns the objects it visited |
| XmlSerialization.XmlSerializer.GatherItemsOf | packages/dev/serializers/src/3MF/core/xml/xml.serializer.ts:211-219 | the loop over an array's items agrees with the gathering walk over them |
| XmlSerialization.XmlSerializer.GatherFieldNames | packages/dev/serializers/src/3MF/core/xml/xml.serializer.ts:239-258 | the loop over the keys binds the names of the non-skipped properties' descriptors and returns the properties to visit |
| XmlSerialization.XmlSerializer.GatherField | packages/dev/serializers/src/3MF/core/xml/xml.serializer.ts:240-257 | one key: skipped when its value is absent or it is ignored, otherwise its descriptor names are bound and it is marked for visiting |
| XmlSerialization.XmlSerializer.AssignMetaNames | packages/dev/serializers/src/3MF/core/xml/xml.serializer.ts:251-255 | the namespace of every descriptor name that is set is bound, in order |
| XmlSerialization.XmlSerializer.GatherValues | packages/dev/serializers/src/3MF/core/xml/xml.serializer.ts:260-265 | the loop over the values to visit agrees with the gathering walk over them, skipping primitives |
| XmlSerialization.XmlSerializer.WriteObject | packages/dev/serializers/src/3MF/core/xml/xml.serializer.ts:88-118 | succeeds exactly when the emission walk does, appends exactly its calls, and returns the objects it visited |
| XmlSerialization.XmlSerializer.WriteElement | packages/dev/serializers/src/3MF/core/xml/xml.serializer.ts:108-117 | a named object writes its element with its content; an unnamed one writes nothing |
| XmlSerialization.XmlSerializer.WriteItemsOf | packages/dev/serializers/src/3MF/core/xml/xml.serializer.ts:94-105 | the loop over an array's items appends the calls of the emission walk over them: text for strings, nothing for numbers and booleans |
| XmlSerialization.XmlSerializer.WriteObjectContent | packages/dev/serializers/src/3MF/core/xml/xml.serializer.ts:130-202 | appends the calls of the content specification for the object, attribute properties first |
| XmlSerialization.XmlSerializer.WriteKeys | packages/dev/serializers/src/3MF/core/xml/xml.serializer.ts:152-201 | the loop over the sorted keys appends the calls of the emission walk over them |
| XmlSerialization.XmlSerializer.WriteProp | packages/dev/serializers/src/3MF/core/xml/xml.serializer.ts:153-200 | one key appends the calls of the specification: nothing when absent or ignored, attributes, text, or a nested object |
| XmlSerialization.XmlSerializer.WriteAttrs | packages/dev/serializers/src/3MF/core/xml/xml.serializer.ts:165-190 | the loop over one property's descriptors appends the attribute calls of the specification or fails as it does |
| XmlSerialization.XmlSerializer.WriteAttrsFrom | packages/dev/serializers/src/3MF/core/xml/xml.serializer.ts:165-190 | the descriptor loop appends the attribute calls the specification gives from the first descriptor on, or fails as it does |
| XmlSerialization.XmlSerializer.WriteAttrAt | packages/dev/serializers/src/3MF/core/xml/xml.serializer.ts:166-188 | one descriptor of the loop fails exactly when its call does, otherwise its call joins those already written |
| XmlSerialization.XmlSerializer.WriteAttr | packages/dev/serializers/src/3MF/core/xml/xml.serializer.ts:166-188 | one descriptor appends its attribute call, or fails as the specification does |
| XmlSerialization.XmlSerializer.WriteNsDecls | packages/dev/serializers/src/3MF/core/xml/xml.serializer.ts:81-83 | one xmlns attribute call per binding is appended, in insertion order |
| XmlSerialization.XmlSerializer.Serialize | packages/dev/serializers/src/3MF/core/xml/xml.serializer.ts:68-86 | fails exactly when no name is found or a walk fails; otherwise appends the root element, one xmlns attribute per binding, the root's content and the end, and leaves the namespace state the specification gives |
| ThreeMfInterfaces.ParseUnit | packages/dev/serializers/src/3MF/core/model/3mf.interfaces.ts:21-28 | a string is read as a unit only when it is that unit's written name |
| ThreeMfInterfaces.UnitNamesRoundTrip | packages/dev/serializers/src/3MF/core/model/3mf.interfaces.ts:21-28 | every one of the six units reads back from its written name |
| ThreeMfInterfaces.ParseObjectType | packages/dev/serializers/src/3MF/core/model/3mf.interfaces.ts:79-85 | a string is read as an object type only when it is that type's written name |
| ThreeMfInterfaces.ObjectTypeNamesRoundTrip | packages/dev/serializers/src/3MF/core/model/3mf.interfaces.ts:79-85 | every one of the five object types reads back from its written name |
| ThreeMfInterfaces.TrianglePidOverrides | packages/dev/serializers/src/3MF/core/model/3mf.interfaces.ts:148-162 | a triangle with its own pid indexes into that group whatever the object's pid |
| ThreeMfUtils.IdsIncrease | packages/dev/serializers/src/3MF/core/model/3mf.utils.ts:45-47 | with a positive step, ids handed out later are strictly larger, so no two ids of one run are equal |
| ThreeMfUtils.IncrementalIdFactory.constructor | packages/dev/serializers/src/3MF/core/model/3mf.utils.ts:30-35 | the factory keeps from, to and step, and its counter starts at from with nothing handed out |
| ThreeMfUtils.IncrementalIdFactory.Default | packages/dev/serializers/src/3MF/core/model/3mf.utils.ts:30-35 | the default factory counts from 0 in steps of 1 with Number.MIN_SAFE_INTEGER as its bound |
| ThreeMfUtils.IncrementalIdFactory.Next | packages/dev/serializers/src/3MF/core/model/3mf.utils.ts:41-48 | below the bound an error and no change; otherwise the counter is returned and advanced by step, so the k-th id is from + k * step |
| ThreeMfUtils.IncrementalIdFactory.Reset | packages/dev/serializers/src/3MF/core/model/3mf.utils.ts:54-57 | the counter is back at from, the run starts afresh, and the same factory is returned |
| ThreeMfUtils.DefaultNeverRefuses | packages/dev/serializers/src/3MF/core/model/3mf.utils.ts:30-48 | the default factory's k-th id is k, never below its bound, so it never refuses |
| ThreeMfOpc.PartNames | packages/dev/serializers/src/3MF/core/model/3mf.opc.interfaces.ts:30-34 | the part names are "3D/3dmodel.model", "_rels/.rels" and "[Content_Types].xml" |
| ThreeMfOpc.KnownTypesExactly | packages/dev/serializers/src/3MF/core/model/3mf.opc.interfaces.ts:63-86 | a type is known exactly when it is one of the four listed URIs; the model relationship type is known |
| ThreeMfOpc.NewContentType | packages/dev/serializers/src/3MF/core/model/3mf.opc.ts:38-41 | the content type stores the extension and the content type as given |
| ThreeMfOpc.NewRelationship | packages/dev/serializers/src/3MF/core/model/3mf.opc.ts:78-82 | the relationship stores id, type and target as given |
| ThreeMfOpc.NewDocument | packages/dev/serializers/src/3MF/core/model/3mf.opc.ts:88-93 | the document holds its three parts as given |
| ThreeMfOpc.OpcNamespaces | packages/dev/serializers/src/3MF/core/model/3mf.opc.ts:9-75 | content-type elements and their Extension and ContentType attributes are in the content-types namespace; relationship elements are in the relationships namespace with unqualified Id, Type and Target |
| ThreeMfModel.Zero | packages/dev/serializers/src/3MF/core/model/3mf.ts:38-40 | twelve zero entries, which send every point to the origin |
| ThreeMfModel.Identity | packages/dev/serializers/src/3MF/core/model/3mf.math.ts:19-21 | the matrix leaves every point where it is |
| ThreeMfModel.Translate | packages/dev/serializers/src/3MF/core/model/3mf.matrix.ts:28-30 | the linear part is the identity's and tx, ty, tz sit in the last three slots, so every point moves by (tx, ty, tz) |
| ThreeMfModel.TranslateZeroIsIdentity | packages/dev/serializers/src/3MF/core/model/3mf.matrix.ts:17-30 | a translation by nothing equals the identity |
| ThreeMfModel.MatrixTextSplits | packages/dev/serializers/src/3MF/core/model/3mf.ts:51-53 | the text of a matrix splits back on its single spaces into exactly the twelve texts of its values |
| ThreeMfModel.FormatAll | packages/dev/serializers/src/3MF/core/model/3mf.ts:69-71 | a successful formatting gives one text per value |
| ThreeMfModel.FormatAllOk | packages/dev/serializers/src/3MF/core/model/3mf.ts:69-71 | when every value formats, the i-th text is the i-th value formatted |
| ThreeMfModel.FormatAllErr | packages/dev/serializers/src/3MF/core/model/3mf.ts:69-71 | one value that fails to format makes the whole formatting fail |
| ThreeMfModel.MatrixFormatterOf | packages/dev/serializers/src/3MF/core/model/3mf.ts:59-72 | a matrix's transform text exists exactly when all twelve values format, and is then the formatted values joined with single spaces |
| ThreeMfModel.ClampByte | packages/dev/serializers/src/3MF/core/model/3mf.math.ts:55 | the channel is rounded and held in [0, 255]: the rounded value when in range, else 0 or 255 |
| ThreeMfModel.ClampByteOfByte | packages/dev/serializers/src/3MF/core/model/3mf.math.ts:64-65 | a byte clamps to itself, so clamping the alpha byte again changes nothing |
| ThreeMfModel.AlphaByte | packages/dev/serializers/src/3MF/core/model/3mf.math.ts:63-64 | an alpha of at most 1 is scaled by 255, a larger one is taken as a byte; either way clamped to a byte |
| ThreeMfModel.RgbaToHex | packages/dev/serializers/src/3MF/core/model/3mf.math.ts:54-69 | '#' then six hex digits, or eight when the colour has an alpha |
| ThreeMfModel.ParseHexColor | packages/dev/serializers/src/3MF/core/model/3mf.math.ts:54-69 | only '#RRGGBB' or '#RRGGBBAA' texts read back as bytes |
| ThreeMfModel.RgbaToHexRoundTrip | packages/dev/serializers/src/3MF/core/model/3mf.math.ts:54-69 | the encoded colour reads back as the rounded, clamped r, g, b bytes, without gamma, with the alpha byte exactly when the colour has an alpha |
| ThreeMfModel.OpaqueRoundTrip | packages/dev/serializers/src/3MF/core/model/3mf.math.ts:68 | a colour without alpha reads back as its three clamped channel bytes |
| ThreeMfModel.TranslucentRoundTrip | packages/dev/serializers/src/3MF/core/model/3mf.math.ts:62-66 | a colour with alpha reads back as its three clamped channel bytes and its alpha byte |
| ThreeMfModel.NewModel | packages/dev/serializers/src/3MF/core/model/3mf.ts:77-114 | a new model has unit millimeter and every other field absent |
| ThreeMfModel.NewMeta | packages/dev/serializers/src/3MF/core/model/3mf.ts:151-156 | the entry stores name, value, preserve and type as given |
| ThreeMfModel.NewObject | packages/dev/serializers/src/3MF/core/model/3mf.ts:242-245 | id and type are stored; every other field, content included, is absent, so no pindex appears without a pid |
| ThreeMfModel.NewMesh | packages/dev/serializers/src/3MF/core/model/3mf.ts:262-265 | a missing vertex or triangle container becomes an empty one; given ones are kept |
| ThreeMfModel.EmptyMeshWellFormed | packages/dev/serializers/src/3MF/core/model/3mf.ts:262-265 | the default mesh is empty, and its triangles reference its vertices |
| ThreeMfModel.NewTriangle | packages/dev/serializers/src/3MF/core/model/3mf.ts:367-371 | the three corners are stored; p1, p2, p3 and pid are absent |
| ThreeMfModel.NewTriangleUsesObjectPid | packages/dev/serializers/src/3MF/core/model/3mf.ts:367-371 | a triangle built by the constructor takes its object's property group |
| ThreeMfModel.NewComponent | packages/dev/serializers/src/3MF/core/model/3mf.ts:402-405 | the component stores the object id and the optional transform |
| ThreeMfModel.NewBaseMaterials | packages/dev/serializers/src/3MF/core/model/3mf.ts:424-426 | a new group has the id and no bases |
| ThreeMfModel.NewItem | packages/dev/serializers/src/3MF/core/model/3mf.ts:491-495 | the item stores object id, transform and part number, with no metadata group |
| ThreeMfModel.ModelClassesInCoreNamespace | packages/dev/serializers/src/3MF/core/model/3mf.ts:77-496 | every model class is an element of the core 3MF namespace |
| ThreeMfModel.TransformThroughMatrixFormatter | packages/dev/serializers/src/3MF/core/model/3mf.ts:388-406 | a component's or item's transform has exactly one descriptor, an attribute written through the matrix formatter |
| ThreeMfModel.MetaValueIsText | packages/dev/serializers/src/3MF/core/model/3mf.ts:119-157 | a meta's value carries no descriptor, so a string value is written as the element's text and nothing else |
| ThreeMfBuilder.SrgbByte | packages/dev/serializers/src/3MF/core/model/3mf.builder.ts:285 | the gamma-encoded channel is a byte in [0, 255] |
| ThreeMfBuilder.BuilderAlphaByte | packages/dev/serializers/src/3MF/core/model/3mf.builder.ts:292 | the alpha is a byte in [0, 255] |
| ThreeMfBuilder.BuilderColorHex | packages/dev/serializers/src/3MF/core/model/3mf.builder.ts:284-300 | '#' and six hex digits, eight when the colour has an alpha |
| ThreeMfBuilder.AlphaConventions | packages/dev/serializers/src/3MF/core/model/3mf.builder.ts:292 | an alpha in [0, 1] gives the same byte as the model's colour encoder; above 1 the builder saturates at 255 where the model's encoder reads it as a byte |
| ThreeMfBuilder.FindBase | packages/dev/serializers/src/3MF/core/model/3mf.builder.ts:266 | the first base whose name equals the given one ignoring case, or none when no base matches |
| ThreeMfBuilder.UpsertColor | packages/dev/serializers/src/3MF/core/model/3mf.builder.ts:264-274 | a matching base keeps the list's length, otherwise a new base is appended; names unique ignoring case stay unique |
| ThreeMfBuilder.UpsertColorSets | packages/dev/serializers/src/3MF/core/model/3mf.builder.ts:264-274 | afterwards exactly one base carries the name and it has the new colour; every other base is an old one |
| ThreeMfBuilder.FindBaseLatinCase | packages/dev/serializers/src/3MF/core/model/3mf.builder.ts:266-269 | a colour named "GRÜN" finds the base named "grün", and withColor overwrites that base's colour instead of adding a second one |
| ThreeMfBuilder.AddContentType | packages/dev/serializers/src/3MF/core/model/3mf.builder.ts:447-456 | the type is listed afterwards, nothing else is added, and a type already listed leaves the list unchanged |
| ThreeMfBuilder.AddContentTypeDistinct | packages/dev/serializers/src/3MF/core/model/3mf.builder.ts:447-456 | a list without duplicates keeps none |
| ThreeMfBuilder.AddRelationship | packages/dev/serializers/src/3MF/core/model/3mf.builder.ts:463-470 | a relationship whose id is taken is dropped, any other is appended |
| ThreeMfBuilder.AddRelationshipDistinct | packages/dev/serializers/src/3MF/core/model/3mf.builder.ts:463-470 | relationship ids stay unique and the id is present afterwards |
| ThreeMfBuilder.ObjectBuilder.constructor | packages/dev/serializers/src/3MF/core/model/3mf.builder.ts:65-67 | the builder holds a new object with the id and type |
| ThreeMfBuilder.ObjectBuilder.Components | packages/dev/serializers/src/3MF/core/model/3mf.builder.ts:128-133 | a components builder's object starts with an empty components list |
| ThreeMfBuilder.ObjectBuilder.Mesh | packages/dev/serializers/src/3MF/core/model/3mf.builder.ts:162-166 | a mesh builder's object is of type model |
| ThreeMfBuilder.ObjectBuilder.WithName | packages/dev/serializers/src/3MF/core/model/3mf.builder.ts:74-77 | only the name changes |
| ThreeMfBuilder.ObjectBuilder.WithThumbnail | packages/dev/serializers/src/3MF/core/model/3mf.builder.ts:84-87 | only the thumbnail changes |
| ThreeMfBuilder.ObjectBuilder.WithProperty | packages/dev/serializers/src/3MF/core/model/3mf.builder.ts:95-99 | pid becomes the id and the object id is overwritten by the index; pindex is left as it was |
| ThreeMfBuilder.ObjectBuilder.Build | packages/dev/serializers/src/3MF/core/model/3mf.builder.ts:105-107 | the object as built so far |
| ThreeMfBuilder.ObjectBuilder.Reset | packages/dev/serializers/src/3MF/core/model/3mf.builder.ts:114-116 | a new object with the id and type; the handlers are kept |
| ThreeMfBuilder.ObjectBuilder.WithComponent | packages/dev/serializers/src/3MF/core/model/3mf.builder.ts:139-142 | the component is appended to the components list; an object without one fails and is unchanged |
| ThreeMfBuilder.ObjectBuilder.WithPostProcessHandlers | packages/dev/serializers/src/3MF/core/model/3mf.builder.ts:172-176 | the handlers are stored and the object is unchanged |
| ThreeMfBuilder.ObjectBuilder.WithMaterial | packages/dev/serializers/src/3MF/core/model/3mf.builder.ts:194-198 | pid and pindex are set together, so the property reference is complete |
| ThreeMfBuilder.ObjectBuilder.WithData | packages/dev/serializers/src/3MF/core/model/3mf.builder.ts:183-209 | the content becomes a mesh with one vertex per position triple and one triangle per index triple, each in order and through its handler; nothing else changes |
| ThreeMfBuilder.ObjectBuilder.BuildVertices | packages/dev/serializers/src/3MF/core/model/3mf.builder.ts:211-227 | ceil(n / 3) vertices for n positions, the k-th made of positions 3k..3k+2 (0 past the end) and passed through the vertex handler |
| ThreeMfBuilder.ObjectBuilder.BuildTriangles | packages/dev/serializers/src/3MF/core/model/3mf.builder.ts:229-245 | one triangle per index triple, the k-th made of indices 3k..3k+2 and passed through the triangle handler |
| ThreeMfBuilder.MaterialBuilder.constructor | packages/dev/serializers/src/3MF/core/model/3mf.builder.ts:254-256 | an empty base materials group with the id |
| ThreeMfBuilder.MaterialBuilder.WithColor | packages/dev/serializers/src/3MF/core/model/3mf.builder.ts:264-274 | the bases become the upsert of the named colour; the id is kept and names stay unique ignoring case |
| ThreeMfBuilder.MaterialBuilder.Build | packages/dev/serializers/src/3MF/core/model/3mf.builder.ts:280-282 | the group as built so far |
| ThreeMfBuilder.ModelBuilder.constructor | packages/dev/serializers/src/3MF/core/model/3mf.builder.ts:306-319 | a new millimetre model |
| ThreeMfBuilder.ModelBuilder.WithMetaData | packages/dev/serializers/src/3MF/core/model/3mf.builder.ts:329-338 | one meta entry is appended, the list created on first use; nothing else changes |
| ThreeMfBuilder.ModelBuilder.WithMaterial | packages/dev/serializers/src/3MF/core/model/3mf.builder.ts:345-355 | the group is appended to the base materials, resources and list created on first use |
| ThreeMfBuilder.ModelBuilder.WithObject | packages/dev/serializers/src/3MF/core/model/3mf.builder.ts:362-383 | the object is appended to the object resources, created on first use |
| ThreeMfBuilder.ModelBuilder.WithBuild | packages/dev/serializers/src/3MF/core/model/3mf.builder.ts:392-396 | one build item is appended, the build created on first use |
| ThreeMfBuilder.ModelBuilder.WithUnit | packages/dev/serializers/src/3MF/core/model/3mf.builder.ts:403-406 | only the unit changes |
| ThreeMfBuilder.ModelBuilder.Reset | packages/dev/serializers/src/3MF/core/model/3mf.builder.ts:412-416 | the model is new again |
| ThreeMfBuilder.ModelBuilder.BuildModel | packages/dev/serializers/src/3MF/core/model/3mf.builder.ts:422-431 | succeeds exactly when there is an object resource and a build item, and then returns the model |
| ThreeMfBuilder.NoBuildNeverBuildable | packages/dev/serializers/src/3MF/core/model/3mf.builder.ts:427-429 | a model with no build cannot be built |
| ThreeMfBuilder.DocumentBuilder.constructor | packages/dev/serializers/src/3MF/core/model/3mf.builder.ts:437-440 | no content types, relationships or model |
| ThreeMfBuilder.DocumentBuilder.WithContentType | packages/dev/serializers/src/3MF/core/model/3mf.builder.ts:447-456 | the type is added unless it is listed already; the lists stay free of duplicates |
| ThreeMfBuilder.DocumentBuilder.WithRelationship | packages/dev/serializers/src/3MF/core/model/3mf.builder.ts:463-474 | the relationship is added unless its id is taken, and the relationships content type is declared |
| ThreeMfBuilder.DocumentBuilder.WithModel | packages/dev/serializers/src/3MF/core/model/3mf.builder.ts:481-489 | the model is stored and the model content type is declared |
| ThreeMfBuilder.DocumentBuilder.WithModelBuilder | packages/dev/serializers/src/3MF/core/model/3mf.builder.ts:481-489 | a builder that cannot build makes the call fail and leaves the document builder unchanged; otherwise its model is stored and the model content type is declared unless already listed |
| ThreeMfBuilder.DocumentBuilder.Build | packages/dev/serializers/src/3MF/core/model/3mf.builder.ts:491-504 | fails exactly without a model, changing nothing; otherwise the document bundles the builder's own lists and model: the default rel0 relationship and the rels content type are added when no relationship was given, and the content types are left as they were otherwise; no duplicates |
| ThreeMfPackage.MetaEntries | packages/dev/serializers/src/3MF/core/model/3mf.serializer.ts:182-184 | one entry per metadata pair, in order, with the pair's key and value and no preserve or type |
| ThreeMfPackage.PreparedModel | packages/dev/serializers/src/3MF/core/model/3mf.serializer.ts:180-185 | the model handed to toModel has the option's unit or millimetre, metadata exactly when at least one pair is given, and nothing else |
| ThreeMfPackage.ToDocument | packages/dev/serializers/src/3MF/core/model/3mf.serializer.ts:179-187 | the build never fails; the document holds toModel's model, the default rel0 relationship, and exactly the model and rels content types in that order |
| ThreeMfPackage.ZipTarget.constructor | packages/dev/serializers/src/3MF/core/model/3mf.serializer.ts:152 | a new archive has received no call |
| ThreeMfPackage.ZipTarget.Add | packages/dev/serializers/src/3MF/core/model/3mf.serializer.ts:128-129 | the entry is recorded after the earlier calls |
| ThreeMfPackage.ZipTarget.End | packages/dev/serializers/src/3MF/core/model/3mf.serializer.ts:168 | the end is recorded after the earlier calls |
| ThreeMfPackage.DeclarationWrites | packages/dev/serializers/src/3MF/core/model/3mf.serializer.ts:136 | dec("1.0", "UTF-8") writes exactly the XML declaration with that version and encoding |
| ThreeMfPackage.SerializeEntry | packages/dev/serializers/src/3MF/core/model/3mf.serializer.ts:127-142 | a level-6 entry of that name is added, and its bytes are the UTF-8 of the declaration followed by the part's XML, closed by one final empty chunk |
| ThreeMfPackage.WriteEntry | packages/dev/serializers/src/3MF/core/model/3mf.serializer.ts:133-141 | the entry's bytes are the UTF-8 of the declaration's text and the body's, ending with the only final chunk |
| ThreeMfPackage.DeclaredWrites | packages/dev/serializers/src/3MF/core/model/3mf.serializer.ts:136-138 | the writes reach the writer as the declaration's and then the serializer's |
| ThreeMfPackage.Stream | packages/dev/serializers/src/3MF/core/model/3mf.serializer.ts:133-141 | a fresh UTF-8 writer receiving the writes and then finished leaves their encoded text, with one final empty chunk at the end |
| ThreeMfPackage.FinalChunkLast | packages/dev/serializers/src/3MF/core/model/3mf.serializer.ts:140-141 | the finishing chunk is the last and the only final one |
| ThreeMfPackage.Forward | packages/dev/serializers/src/3MF/core/model/3mf.serializer.ts:136-138 | the writer accepts the writes' text in order, and no pushed chunk is final |
| ThreeMfPackage.SerializeAsync | packages/dev/serializers/src/3MF/core/model/3mf.serializer.ts:87-169 | nothing without a library; the named error without Zip or ZipDeflate; toDocument's error passed on; nothing without a document; otherwise content types, relationships and model entries at their OPC names, each finished, then the end |
| ThreeMfPackage.FlattenLength | packages/dev/serializers/src/3MF/core/model/3mf.serializer.ts:237-238 | the laid-out chunks are as long as the sum of their lengths |
| ThreeMfPackage.MemorySink.constructor | packages/dev/serializers/src/3MF/core/model/3mf.serializer.ts:229-230 | no chunks and size 0 |
| ThreeMfPackage.MemorySink.Push | packages/dev/serializers/src/3MF/core/model/3mf.serializer.ts:234-239 | the chunk is kept after the others and its length added to the size, which stays the total length |
| ThreeMfPackage.ToBuffer | packages/dev/serializers/src/3MF/core/model/3mf.serializer.ts:243-255 | undefined exactly when nothing was written; otherwise a new buffer of exactly size bytes holding the chunks in arrival order |
| ThreeMfPackage.FlattenAppend | packages/dev/serializers/src/3MF/core/model/3mf.serializer.ts:249-254 | laying out two runs of chunks is laying out each and joining the results |
| ThreeMfPackage.FlattenSplit | packages/dev/serializers/src/3MF/core/model/3mf.serializer.ts:250-253 | the offset reached after k chunks plus what remains is the whole size, so each chunk fits in the buffer |
| BjsSerializer.UniqSnoc | packages/dev/serializers/src/3MF/3mfSerializer.ts:105-107 | a new key extends the order of first occurrence by itself; a key already met leaves it unchanged |
| BjsSerializer.UniqProps | packages/dev/serializers/src/3MF/3mfSerializer.ts:105-107 | the first-occurrence order has every key of the list, each exactly once |
| BjsSerializer.Gather | packages/dev/serializers/src/3MF/3mfSerializer.ts:181-182 | three positions per gathered vertex |
| BjsSerializer.GatherAt | packages/dev/serializers/src/3MF/3mfSerializer.ts:181-182 | the k-th gathered triple is the triple of the k-th vertex |
| BjsSerializer.GatherSnoc | packages/dev/serializers/src/3MF/3mfSerializer.ts:181-182 | gathering one more vertex appends exactly its triple |
| BjsSerializer.CompactionKeepsCorners | packages/dev/serializers/src/3MF/3mfSerializer.ts:173-186 | every rewritten index names the same position triple as the original index did |
| BjsSerializer.CompactionIsTight | packages/dev/serializers/src/3MF/3mfSerializer.ts:169-186 | every new vertex is used by some rewritten index, and there are no more new vertices than indices |
| BjsSerializer.NumbersStep | packages/dev/serializers/src/3MF/3mfSerializer.ts:176-179 | a vertex already met keeps its number; a new one gets the next number, the size of the table |
| BjsSerializer.ExtractSubMesh | packages/dev/serializers/src/3MF/3mfSerializer.ts:151-192 | nothing without indices or positions; the mesh's own data when the submesh covers every index; otherwise the compaction of its window: vertices in order of first use, indices rewritten to them |
| BjsSerializer.ScanStep | packages/dev/serializers/src/3MF/3mfSerializer.ts:174-183 | one loop step keeps the table, the vertices met and the gathered positions in step |
| BjsSerializer.ScanIndex | packages/dev/serializers/src/3MF/3mfSerializer.ts:174-185 | after step i the first i + 1 indices are rewritten and the vertices met are numbered in order of first use |
| BjsSerializer.CompactWindow | packages/dev/serializers/src/3MF/3mfSerializer.ts:169-191 | the loop's output is the compaction of the window |
| BjsSerializer.GroupIndex | packages/dev/serializers/src/3MF/3mfSerializer.ts:198 | the position of the group with the key, or -1 exactly when no group has it |
| BjsSerializer.Keys | packages/dev/serializers/src/3MF/3mfSerializer.ts:107 | one key per group, in group order |
| BjsSerializer.MapSeq | packages/dev/serializers/src/3MF/3mfSerializer.ts:105 | the key of every item, in order |
| BjsSerializer.KeysUpdate | packages/dev/serializers/src/3MF/3mfSerializer.ts:199-203 | adding to a group keeps the keys; a new group appends its key |
| BjsSerializer.GroupsKeys | packages/dev/serializers/src/3MF/3mfSerializer.ts:194-206 | the groups' keys are the items' keys in order of first occurrence, each once |
| BjsSerializer.GroupsMembers | packages/dev/serializers/src/3MF/3mfSerializer.ts:194-206 | each group holds exactly the items with its key, in their original order |
| BjsSerializer.WithKeyAbsent | packages/dev/serializers/src/3MF/3mfSerializer.ts:194-206 | no item has a key that no group was made for |
| BjsSerializer.GroupBy | packages/dev/serializers/src/3MF/3mfSerializer.ts:194-206 | the loop yields the groups of the items by key, in Map insertion order |
| BjsSerializer.GroupsKeep | packages/dev/serializers/src/3MF/3mfSerializer.ts:194-206 | no group is empty, and every item in a group is one of the items |
| BjsSerializer.AxisSwap | packages/dev/serializers/src/3MF/3mfSerializer.ts:208-214 | (x, y, z) becomes (x, -z, y) |
| BjsSerializer.AxisSwapIsRotation | packages/dev/serializers/src/3MF/3mfSerializer.ts:208-214 | the swap keeps distances to the origin, and four swaps give the vertex back |
| BjsSerializer.ReorderTo3mf | packages/dev/serializers/src/3MF/3mfSerializer.ts:218-225 | entry (row r, column c) of the 3MF matrix is Babylon storage entry 4c + r |
| BjsSerializer.AddMeshObject | packages/dev/serializers/src/3MF/3mfSerializer.ts:81-97 | one mesh object is appended with the next id and the name, its mesh read from the data through the axis swap |
| BjsSerializer.AddSubMeshObjects | packages/dev/serializers/src/3MF/3mfSerializer.ts:75-89 | one object per submesh when the mesh has indices and positions, each indexed under its submesh; earlier objects untouched |
| BjsSerializer.ObjectName | packages/dev/serializers/src/3MF/3mfSerializer.ts:72 | the mesh's name, or mesh followed by the element's position when the name is empty |
| BjsSerializer.AddMesh | packages/dev/serializers/src/3MF/3mfSerializer.ts:65-98 | an instance is set aside; a mesh adds its object or one per submesh, indexed at its id |
| BjsSerializer.AddMeshes | packages/dev/serializers/src/3MF/3mfSerializer.ts:63-99 | object k has id k, every index entry is its object, and the set-aside instances are the exported ones in order |
| BjsSerializer.SubMeshComponents | packages/dev/serializers/src/3MF/3mfSerializer.ts:116-128 | at most one component per submesh, each with the instance's transform and a reference to an indexed object |
| BjsSerializer.InstanceComponents | packages/dev/serializers/src/3MF/3mfSerializer.ts:111-138 | a split source gives at most one component per submesh; otherwise one component exactly when the source mesh is indexed |
| BjsSerializer.GroupComponents | packages/dev/serializers/src/3MF/3mfSerializer.ts:111-139 | every component of a group refers to an indexed object and carries its instance's transform |
| BjsSerializer.GroupObject | packages/dev/serializers/src/3MF/3mfSerializer.ts:109-141 | a components object of type model, with the next id and no name |
| BjsSerializer.AddInstanceComponents | packages/dev/serializers/src/3MF/3mfSerializer.ts:113-138 | the components builder gains exactly the instance's components |
| BjsSerializer.AddGroupObject | packages/dev/serializers/src/3MF/3mfSerializer.ts:108-142 | one group's components object is appended with the next id |
| BjsSerializer.AddGroups | packages/dev/serializers/src/3MF/3mfSerializer.ts:107-143 | one components object per group, in group order, after the existing objects |
| BjsSerializer.GroupObjectBelow | packages/dev/serializers/src/3MF/3mfSerializer.ts:122-136 | a group object refers only to mesh objects |
| BjsSerializer.AddInstances | packages/dev/serializers/src/3MF/3mfSerializer.ts:103-144 | the instances' groups become components objects, in order of first occurrence of their source mesh |
| BjsSerializer.IndexedPrefix | packages/dev/serializers/src/3MF/3mfSerializer.ts:87-97 | appending objects keeps every index entry valid |
| BjsSerializer.GroupObjectsBelow | packages/dev/serializers/src/3MF/3mfSerializer.ts:122-136 | every components object refers only to objects made in the first pass |
| BjsSerializer.GroupObjectIds | packages/dev/serializers/src/3MF/3mfSerializer.ts:57-109 | object ids stay equal to their positions after the second pass |
| BjsSerializer.BuildResources | packages/dev/serializers/src/3MF/3mfSerializer.ts:56-144 | mesh objects first, then one components object per distinct instanced mesh, with ids equal to positions and no build item |
| BjsSerializer.FinishDocument | packages/dev/serializers/src/3MF/3mfSerializer.ts:146-148 | the document exists exactly when the model can be built, with the model, the default relationship, and exactly the model and rels content types in that order |
| BjsSerializer.ToDocument | packages/dev/serializers/src/3MF/3mfSerializer.ts:56-149 | no build item is ever added, so the document is never produced |
| BjsSerializer.AddBuildItems | packages/dev/serializers/src/3MF/3mfSerializer.ts:146-148 | one build item per object resource, in order, with no transform |
| BjsSerializer.ToDocumentWithBuild | packages/dev/serializers/src/3MF/3mfSerializer.ts:56-149 | with a build item per object, the document exists exactly when there is an object, and it prints every mesh and instance group |

## Left out

- JsRuntime.ToLower: only the capitals of ASCII, of the Latin-1 Supplement and of basic Cyrillic are lowered. JavaScript's `toLowerCase` lowers every Unicode capital, applies the Greek final-sigma rule, and can change a string's length (U+0130 becomes two characters). Names that differ only in the case of other letters ("ΣΑ" and "σα") are therefore distinct in the model and equal in the source. This reaches `ThreeMfBuilder.FindBase` and `ThreeMfBuilder.UpsertColor`, the accordion search (`Accordion.ItemMatchIff`, `Accordion.IsSectionEmpty`) and the serializer's namespace keys (`XmlSerialization.Bind`).
- Floating point is modelled as exact reals. This covers colour channels, `toFixed`/`log10` rounding, the gamma curve (a function parameter), and the matrix multiply and transpose in `_handleBjsTo3mfMatrixTransformToRef`; only the reordering of that function is modelled. NaN appears only where the code tests for it.
- The zip library (fflate) is an ordered log of the calls it receives. Compression, the async `Promise` flow and `ensureZipLibReadyAsync` are left out; the library's availability is a parameter.
- `TextEncoder` is modelled as UTF-8 over Unicode scalar values. Lone surrogates are outside the model.
- A mesh's identity (the key of the object index) is a number carried by the mesh and submesh values. JavaScript object identity and aliasing of the builders' objects are not modelled.
- The number formatter's option resolution (`NumberFormatter`, `ResolveFormatOptions`) is not part of this model. Options the caller leaves out are taken to be eps 1e-6 with every other field at the default `FormatNumberXml` gives it.
- XmlFormat.FormatNumber: the serializer's matrix formatting uses the corrected formatter `FormatNumberXmlIntended`, not `FormatNumberXml` as written. The two differ only on the inputs of the first two findings: no decimals (eps of 1 or more, or a cap of 0), or decimals coarser than the eps grid. With the default options they agree on every value (`XmlFormat.FormatNumberDefaults`), and more generally whenever `XmlFormat.IntendedAgrees` applies. With options that reach a finding, the model's matrix text is an error or "0" where the source writes "1e+21" or "-0".
- ThreeMfPackage.SerializeAsync: each part's XML reaches its zip entry as `render(part)`, a parameter that stands for the write calls the serializer and the token writer make for that part. The model proves that these calls are streamed, in order and behind the declaration, into each entry (`ThreeMfPackage.Archived`). It does not prove that they are the calls `XmlSerialization.SerializeSpec` gives for the part's object graph, because the conversion of a `Document` part into that graph and a pure replay of the token writer are not modelled.
- XmlInterfaces.XmlElem: the decorator's documentation says the property is serialized as an element, but the serializer acts only on attribute descriptors (xml.serializer.ts:163-191), so a property whose descriptors are all element descriptors is not written at all (`XmlSerialization.ElementOnlyFieldSilent`). The model follows the code. No 3MF class carries the decorator, so the exporter's output does not depend on it, and the documented element form is not modelled.
- XmlSerialization.AttrValue: `value.toString()` is modelled for strings, booleans and arrays: items are joined with commas, `null` and `undefined` items are empty, and nested arrays are flattened. An object with no formatter is an error here, whereas the source writes `[object Object]` or the class's own `toString` (the matrix classes join their values with spaces). A number inside such an array has text only for NaN, the infinities and integers below 1e21; any other number is an error, because its shortest round-trip decimal is not determined by an exact real.
- `IsQualifiedName` is captured by the constructors of the `XmlName` datatype rather than by a runtime test.
- XmlSerialization.BuildNsPrefix: the `alreadyReferenced` flag is never reset, so termination relies on no collision ever occurring. The model follows the code and proves that the generated `nsN` prefix never collides.
- A namespace URI of the form NCName:NCName would be split by `serialize` as if it were a qualified name. The model follows the code.
- ThreeMfUtils.IncrementalIdFactory.Next: the `from`, `to` and `step` parameters carry no description, and only the "out of bound" message and the `Number.MIN_SAFE_INTEGER` default suggest that `to` is a bound. The code refuses an id once the counter is below `to`, so `to` acts as a lower bound, and the model follows the code.
- ThreeMfBuilder.ObjectBuilder.WithData: an index list whose length is not a multiple of three is outside the model. The vertex data documents whole triples, and the code would read `undefined` indices.
- ThreeMfBuilder.ObjectBuilder.WithComponent: after `reset` there is no components list, and `push` would throw a TypeError. The model returns an error instead.
- BjsSerializer.ExtractSubMesh: it assumes what Babylon guarantees of a submesh. Its index range lies inside the index list, and every index names a whole position triple.
- Lottie: the animation engine, the GPU, the sprite packer and the parser are outside the model; the parsed animation information is given. `requestAnimationFrame` is a counter and `performance.now` a parameter. Of `dispose()` (animationController.ts:216-228), only the part that stops playback is modelled, by `LottieController.AnimationController.Stop`; releasing the renderer, the sprite atlas and the canvas is not.
- LottieController.AnimationController.constructor: requires a positive frame rate. The source divides by it.
- LottieController: `_cleanTree` is modelled on a sequence of nodes, not on the linked scene graph.
- LottieScale.Divide: a zero divisor is taken as positive zero. JavaScript's `-0` is not modelled.
- LottieConfig: where the documentation comments and the code disagree on defaults (gap 25, black background, `supportDeviceLost` true), the model follows the code.
- LottieScale.CalculateScaleFactors: the atlas scale is NaN for 0/0 although its documentation says it is at least 1. The model follows the code.
- GizmoService: property interception, the removal of the scene and selection observers, and garbage collection through the WeakMap are not modelled. The node-disposal observer is modelled only through its effect: it fires at most once, and only while its gizmo has not been disposed.
- SpinButton: evaluating the input text (the `Function` constructor) and `CalculatePrecision` are parameters. Rendering is left out.
- Accordion: `localStorage` persistence is given as values.
- A field set explicitly to `undefined` in a partial configuration is treated as absent.

## Findings

| source | as written | input that shows it | evidently intended | confidence | as-written member | corrected member |
|---|---|---|---|---|---|---|
| packages/dev/serializers/src/3MF/core/xml/xml.serializer.format.ts:98-101 | with no decimals the fast path returns `String(Math.trunc(q))` and skips the scientific-notation guard | eps 1, x = 1e21: the text is "1e+21" | no text in exponent form, as the guard at 114-117 promises | not executed | XmlFormat.ExponentEscapesGuard | XmlFormat.FormatNumberXmlIntended |
| packages/dev/serializers/src/3MF/core/xml/xml.serializer.format.ts:72-75, 104-112 | -0 is normalised before rounding to the chosen decimals, so a small negative value can still print as "-0" | eps 0.001, maxDecimalsCap 2, x = -0.003: the text is "-0" | "0", as the normalisation intends | not executed | XmlFormat.NegativeZeroText | XmlFormat.NegativeZeroTextIntended |
| packages/dev/serializers/src/3MF/3mfSerializer.ts:146-148 | toDocument never adds a build item, so the model builder's build throws (3mf.builder.ts:427-429) | any scene, even one with meshes | one build item per exported object, so the document is produced | not executed | BjsSerializer.ToDocument | BjsSerializer.ToDocumentWithBuild |
| packages/dev/sharedUiComponents/src/fluent/primitives/accordion.contexts.tsx:419 | the section test searches `itemLabel \|\| itemId`, the item test `itemLabel ?? itemId` (347, 369) | item id "x" labelled "" while searching for "x": the item is filtered out, yet its section is reported as not empty | both tests read the same text | not executed | Accordion.EmptyLabelDisagreement | Accordion.SectionEmptyAgrees |
| packages/dev/lottiePlayer/src/rendering/animationController.ts:171-184 | playAnimation resets `_lastFrameTime` to 0 without setting `_firstRun` again (298-303) | play, stop, then play again 10 s after page load, a non-looping 60-frame animation at 30 fps: the first tick jumps to the last frame | the first tick after a replay measures time from the replay | not executed | LottieController.ReplayJumpsToEnd | LottieController.AnimationController.PlayResynced |
