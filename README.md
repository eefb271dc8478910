# Subscription test panel: a Dafny model of its bookkeeping core

The panel lets an operator pick which of the host's topics to subscribe to,
with an optional "preload" flag per topic, and counts the messages it
receives per topic, both live (current frame) and preloaded (the host's
snapshot of all frames). This project models the bookkeeping under the
React and host glue of `src/SubscriptionTestPanel.tsx`:

- `Records`: a string-keyed JavaScript object as the sequence of its
  entries in property order. `Put` is property assignment: an existing key
  keeps its place, a new key is appended.
- `Subscriptions`: the persisted preference state
  (`subscriptions: topic -> { visible?, preload? }`) and the settings
  action handler, as a pure reducer `Reduce`. It covers "update" of
  `subscriptions.<topic>.<field>`, "subscribe-all" and "unsubscribe-all".
  Any other action id does nothing.
- `Projection`: the subscription list handed to the host. It keeps the
  visible entries, in order, each with its preload flag and the schema name
  found in the catalog.
- `SettingsTree`: the children of the "Subscriptions" settings node, one
  per catalog topic.
- `Stats`: the counter tables as values. `Tally` counts a frame message by
  message, and `SumCounts` is the total.
- `Panel`: the component's state as a class. Its fields are the catalog,
  the preferences and the two counter tables. Its methods are the handlers,
  with the counting loops and the total loop written as loops.

An optional JavaScript value (`undefined` or present) is an `Option`. A
preference entry that is `undefined` reads exactly like `{}` wherever the
panel reads it, so it is modelled as `NoPreference`. For a topic without an entry, the
settings node's preload value is `undefined` (`None`), not `false`. A message is modelled
by its topic name, the only field the counters read. The projected
request's `datatype` property is the field `datatypeName`, because
`datatype` is a Dafny keyword.

## Model

| member | source | states |
|---|---|---|
| Records.Lookup | src/SubscriptionTestPanel.tsx:96 | own-property access finds a value exactly when the key is an own property, and with distinct keys it is the value stored under that key |
| Records.PutFacts | src/SubscriptionTestPanel.tsx:79 | property assignment stores the new value, leaves every other key's value and position unchanged, appends a new key last and keeps keys distinct |
| Subscriptions.SubscribeAll | src/SubscriptionTestPanel.tsx:78-81 | the reduce gives distinct keys, and a key has an entry exactly when it is a catalog name; that entry is `{ visible: true }` with no preload |
| Subscriptions.SubscribeAllOrder | src/SubscriptionTestPanel.tsx:78-81 | with distinct catalog names the keys are the catalog names in catalog order |
| Subscriptions.UpdateSetsField | src/SubscriptionTestPanel.tsx:71-73 | an update of `subscriptions.<t>.<f>`, for `t` that lodash `set` writes into an entry of its own (not `__proto__`, `constructor` or `prototype`, and not another `Object.prototype` member name unless `t` already has an entry), sets field `f` of `t` to the value, creating the entry if missing, and keeps `t`'s other field |
| Subscriptions.UpdateKeepsOthers | src/SubscriptionTestPanel.tsx:71-73 | an update of `subscriptions.<t>.<f>`, for `t` that lodash `set` writes into an entry of its own, leaves every other entry's value and position unchanged, keeps `t` in its place or appends it, and keeps keys distinct |
| Subscriptions.SubscribeAllResult | src/SubscriptionTestPanel.tsx:76-82 | "subscribe-all" gives one `{ visible: true }` entry per catalog name whatever the prior state, in catalog order for distinct names, and nothing when there is no catalog |
| Subscriptions.UnsubscribeAllResult | src/SubscriptionTestPanel.tsx:83-86 | "unsubscribe-all" empties the preferences |
| Subscriptions.OtherActionsIgnored | src/SubscriptionTestPanel.tsx:74-87 | any other action id, an update path not of the shape `subscriptions.<topic>.<field>`, an update of a topic named `__proto__`, `constructor` or `prototype` (refused by lodash `set`), and an update of another `Object.prototype` member name such as `toString` with no entry of its own (lodash writes onto the inherited built-in) leave the state unchanged |
| Subscriptions.ReduceKeepsUniqueKeys | src/SubscriptionTestPanel.tsx:69-90 | every action keeps the preference keys distinct |
| Projection.FindByName | src/SubscriptionTestPanel.tsx:164 | `find` by name returns the first index whose name matches, or the catalog length when none does |
| Projection.SchemaOf | src/SubscriptionTestPanel.tsx:164 | the schema name is undefined when there is no catalog or the topic is not in it, and otherwise is the schema name of the first catalog entry with that name |
| Projection.FilterIsOrdered | src/SubscriptionTestPanel.tsx:159-160 | the filter keeps exactly the entries whose `visible` is true (a missing flag counts as false), in their original order |
| Projection.ProjectIsOrderedFilter | src/SubscriptionTestPanel.tsx:159-165 | the requests are exactly the visible entries (a missing `visible` counts as false), in entry order, each carrying the entry's topic, its preload flag and its schema name |
| Projection.ProjectByTopic | src/SubscriptionTestPanel.tsx:159-165 | a topic is requested if and only if its stored `visible` is true, and its request carries the stored preload and the catalog schema name; a topic missing from the catalog is still requested, with no schema name |
| SettingsTree.NodeFor | src/SubscriptionTestPanel.tsx:96-108 | a topic's node is labelled with its name, shows visible exactly when the stored `visible` is true, and has the stored `preload` as its field value (undefined when there is no entry) |
| SettingsTree.ChildrenOf | src/SubscriptionTestPanel.tsx:95-111 | the children have distinct keys, with exactly one node per catalog name, built from that topic's preference |
| SettingsTree.ChildrenOrder | src/SubscriptionTestPanel.tsx:95-111 | with distinct catalog names the children come in catalog order |
| SettingsTree.TreeAgreesWithProjection | src/SubscriptionTestPanel.tsx:99 | a catalog topic's node shows visible exactly when the topic is in the subscription list |
| Stats.TallyCounts | src/SubscriptionTestPanel.tsx:138-145 | after a frame, each topic's count is its old count (0 if absent) plus its number of messages in the frame; a topic has an entry exactly when it had one or occurs in the frame |
| Stats.TallyMonotone | src/SubscriptionTestPanel.tsx:138-145 | counting never lowers a count, and a topic not in the frame keeps its count |
| Stats.SnapshotCounts | src/SubscriptionTestPanel.tsx:173-181 | a rebuilt table holds exactly the snapshot's topics, each mapped to its number of messages in the snapshot |
| Stats.SumOverRemove | src/SubscriptionTestPanel.tsx:198-199 | the total does not depend on the order in which the counts are added |
| Stats.BumpSum | src/SubscriptionTestPanel.tsx:139-144 | one message raises the total by exactly one |
| Stats.TallySum | src/SubscriptionTestPanel.tsx:138-145 | counting a frame raises the total by the frame's number of messages |
| Panel.SubscriptionPanel.constructor | src/SubscriptionTestPanel.tsx:57-63 | the preferences are the restored `subscriptions` when there is one and empty otherwise; the catalog is undefined and both tables are empty |
| Panel.SubscriptionPanel.ResetStats | src/SubscriptionTestPanel.tsx:65-67 | the live table becomes empty and the preloaded table is unchanged |
| Panel.SubscriptionPanel.HandleAction | src/SubscriptionTestPanel.tsx:69-90 | the preferences become the reducer's result and stay keyed uniquely; the live table is emptied exactly on "unsubscribe-all"; the catalog and the preloaded table are untouched |
| Panel.SubscriptionPanel.RecordFrame | src/SubscriptionTestPanel.tsx:138-145 | the live table becomes the old one with the frame counted in: each count grows by the topic's messages in the frame, and no frame changes nothing |
| Panel.SubscriptionPanel.RecountPreloaded | src/SubscriptionTestPanel.tsx:172-182 | the preloaded table maps exactly the snapshot's topics to their message counts, whatever it held before |
| Panel.SubscriptionPanel.OnRender | src/SubscriptionTestPanel.tsx:134-149 | the catalog is replaced, the frame is counted into the live table (raising its total by the frame size), the preloaded table is rebuilt and the preferences are untouched |
| Panel.SubscriptionPanel.TotalStats | src/SubscriptionTestPanel.tsx:196-201 | the total is the sum of all live counts |

## Left out

- React plumbing is not modelled: state hooks, refs, `useMemo`/`useEffect` scheduling, and mounting and unmounting (src/SubscriptionTestPanel.tsx:53-63, 255-260). `OnRender` runs the `allFrames` recount straight after the frame. The effect runs only when the snapshot changes, and the recount depends only on the snapshot, so the tables come out the same.
- Host calls are not modelled: `saveState`, `updatePanelSettingsEditor`, `subscribe`, `watch` and `done`. What they are handed is modelled instead: the preferences, `SettingsTree.Children` and `Projection.Project`.
- Presentation is not modelled: the MUI theme and table, the color scheme, `console.log`, and the static parts of each settings node (field input kind, field label, expansion state, parent node's action list).
- The 500 ms `setInterval` timer and its cancellation are timing only. Only the summation it runs is modelled (`TotalStats`).
- SettingsTree.ChildrenOf: an update of an inherited name with no entry of its own writes the field onto the shared built-in function (`Object.prototype.toString.visible`, say). That global change is not modelled. Afterwards the source's settings node for such a catalog topic can read that field, while the model reads `{}`, and `SettingsTree.TreeAgreesWithProjection` describes the model's state only.
- Subscriptions.ApplyUpdate: lodash `set` is modelled only for paths of the form `subscriptions.<topic>.<field>`, which are the only ones the settings editor sends for this tree. Any other path is treated as a no-op. lodash would write the value somewhere else in the state object. A topic named `__proto__`, `constructor` or `prototype` is modelled as lodash treats it: the update writes nothing. So is a topic named after another `Object.prototype` member (`toString`, `valueOf`, `hasOwnProperty`, …) that has no entry of its own: the preferences do not change.
- Subscriptions.WithField: an update of a field other than `visible` or `preload` creates the topic's entry but does not record the field. No part of the panel reads such fields.
- Subscriptions.Action: update values are booleans, the only values the tree's toggle and boolean field produce.
- Records.Put: `Object.entries` lists integer-like keys first, in ascending order. The model keeps insertion order for every key.
- Panel.SubscriptionPanel.constructor: the restored state is modelled only by its `subscriptions` property. Other properties it might carry are not read by the panel.
- Stats.Counters: `numMsgs` is a JavaScript number, exact only up to 2^53. The model uses unbounded naturals.
- Panel.SubscriptionPanel.TotalStats: the JavaScript loop adds the counts in the table's insertion order. The model adds them in an arbitrary order, and `Stats.SumOverRemove` shows the order does not matter.
- The `Stats` objects inside each table are updated through aliasing (`stats.numMsgs++`). The model updates the map entry's value instead; no other reference to these objects exists.
- `src/index.ts` only registers the panel with the host and is not part of this model.
