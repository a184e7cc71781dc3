# Socket permission warnings and the ChromeOS network menu button

This project models two pieces of Chromium in Dafny and proves properties of
the models.

**Socket permission messages**
(`chrome/common/extensions/permissions/socket_permission.cc`). An extension's
socket permission is a set of entries. Each entry has a host type (any host,
hosts in domains, specific hosts), an "address bound" bit and a pattern
(operation type and host). `SocketPermission::GetMessages` turns that set into
the install-time warnings:

- if an address-bound entry allows any host, one "any host" warning is shown
  instead of any host list;
- otherwise, the specific host names and then the domains are each collected
  into an ordered set of strings. Each non-empty set becomes one warning,
  using the singular string when the set has one element and the plural
  string otherwise, with the names joined by single spaces;
- one "network state" warning follows for every network-state entry.

Module `HostSet` (`host_set.dfy`) models the ordered string set as a strictly
sorted sequence, together with the space join. Module `Permissions`
(`socket_permission.dfy`) has the entries and messages, specification
functions for each message, the `SocketPermission` class with its methods
(loops over `data_set_` proved against those functions), and the lemmas.

**Network menu button** (`chrome/browser/chromeos/status/network_menu_button.cc`).
This is the status-area button that shows the connection state and opens the
network menu. Module `NetworkStatus` (`network_menu_button.dfy`) contains:

- the menu flags, as distinct bits of a `bv16`;
- the network library snapshot the button reads;
- the menu items and the status icons;
- the `NetworkMenuButton` class. Its fields are the library snapshot, the
  item list, `refreshing_menu_`, the activated wifi network, the icon, the
  connecting animation, and a log of the requests the button sends out
  (connect, password dialog, options).

The menu is built by `InitMenuItems` and is proved equal to the function
`MenuItemsFor`. `ActivatedAt` is proved to follow `ReactionTo`, which checks
the flags in the source's priority order. Module `NetworkMenuProperties`
(`network_menu_properties.dfy`) proves:

- the layout of the menu;
- which entries are disabled;
- what each entry does when activated;
- how the signal-strength icon scales.

The source builds the "current network" marks as `FLAG_X & FLAG_BOLD`, and
that expression has no bit set. The model keeps this as written. The lemmas
show what follows from it:

- no entry is ever bold;
- the ethernet entry while ethernet is connecting or connected, and the
  entries of the current wifi and cellular networks, carry no flag at all;
- activating one of those entries does nothing. In a menu built from the
  library state it is activated against, the "already current" branches of
  `ActivatedAt` are therefore never reached. They are reached when a network
  became current after the menu was built.

## Model

| member | source | states |
|---|---|---|
| HostSet.Insert | chrome/common/extensions/permissions/socket_permission.cc:58 | inserting into an ordered set keeps it strictly ordered, and its elements become the old elements plus the new one |
| HostSet.SortedDeterminedByElements | chrome/common/extensions/permissions/socket_permission.cc:54-59 | two ordered listings with the same elements are equal, so iterating a set gives one result whatever the insertion order |
| HostSet.SortedCardinality | chrome/common/extensions/permissions/socket_permission.cc:61 | `size()` of the set equals the number of distinct elements, which is what selects the singular or plural string |
| HostSet.SplitJoin | chrome/common/extensions/permissions/socket_permission.cc:68-70 | the space-joined host list splits back into exactly the hosts, when there is at least one host and no host contains a space |
| Permissions.CollectedHosts | chrome/common/extensions/permissions/socket_permission.cc:54-59 | the hosts collected for a host type are strictly ordered and are exactly the hosts of the entries of that type |
| Permissions.SocketPermission.GetMessages | chrome/common/extensions/permissions/socket_permission.cc:26-35 | requires the set to be non-empty (the `DCHECK`); the result is `Messages(dataSet)`: the any-host warning, or else the specific-host then domain warnings, followed by the network-state warnings |
| Permissions.SocketPermission.AddAnyHostMessage | chrome/common/extensions/permissions/socket_permission.cc:37-50 | returns true iff some entry is address-bound with host type any-host; in that case it appends exactly one any-host warning, and otherwise it appends nothing |
| Permissions.SocketPermission.CollectHosts | chrome/common/extensions/permissions/socket_permission.cc:54-59 | the loop over the data set builds the ordered set `CollectedHosts(dataSet, t)` |
| Permissions.SocketPermission.AddSubdomainHostMessage | chrome/common/extensions/permissions/socket_permission.cc:52-72 | appends `DomainHostMessages(dataSet)`: nothing when there are no domains, otherwise one domain warning with the joined list |
| Permissions.SocketPermission.AddSpecificHostMessage | chrome/common/extensions/permissions/socket_permission.cc:74-94 | appends `SpecificHostMessages(dataSet)`: nothing when there are no specific hosts, otherwise one warning with the joined list |
| Permissions.SocketPermission.AddNetworkListMessage | chrome/common/extensions/permissions/socket_permission.cc:96-108 | appends one network-state warning per network-state entry, and nothing else |
| Permissions.NetworkListMessagesAreNetworkState | chrome/common/extensions/permissions/socket_permission.cc:96-108 | every message the network list adds is the network-state warning |
| Permissions.NetworkStateMessageCount | chrome/common/extensions/permissions/socket_permission.cc:96-108 | there is exactly one network-state warning per element of the listing that asks for NETWORK_STATE |
| Permissions.MessagesSplit | chrome/common/extensions/permissions/socket_permission.cc:26-35 | the messages are the host messages followed by network-state warnings only |
| Permissions.AnyHostMessageRule | chrome/common/extensions/permissions/socket_permission.cc:29-32 | an any-host warning appears iff some entry is address-bound any-host; when one does, it is the first message and no host-list warning appears |
| Permissions.MessagesOrdered | chrome/common/extensions/permissions/socket_permission.cc:29-33 | messages come in the order any-host, specific hosts, domains, network state, and every kind except network state appears at most once |
| Permissions.HostListMessageRule | chrome/common/extensions/permissions/socket_permission.cc:60-71 | a host-list message exists iff some entry has that host type, and there is at most one; its string is singular exactly when the set of hosts has one element; its argument is the sorted hosts joined by spaces |
| Permissions.HostKindInMessages | chrome/common/extensions/permissions/socket_permission.cc:29-32 | a host-related warning of a given kind appears in the messages iff it appears among the host messages |
| Permissions.SpecificHostsMessageRule | chrome/common/extensions/permissions/socket_permission.cc:29-31 | a specific-hosts warning appears iff no address-bound any-host entry exists and some entry has specific hosts; it lists exactly those host names, sorted, with the singular string iff there is one name |
| Permissions.DomainHostsMessageRule | chrome/common/extensions/permissions/socket_permission.cc:29-31 | a domain warning appears iff no address-bound any-host entry exists and some entry has hosts in domains; it lists exactly those domains, sorted, with the singular string iff there is one |
| Permissions.HostListIndependentOfOrder | chrome/common/extensions/permissions/socket_permission.cc:54-59 | two data sets with the same entries give the same host list, whatever order they are iterated in |
| NetworkStatus.BarIndex | chrome/browser/chromeos/status/network_menu_button.cc:339-344 | the bar index is always between 0 and `kNumWifiImages - 1` |
| NetworkStatus.IconForNetworkStrength | chrome/browser/chromeos/status/network_menu_button.cc:337-348 | the icon is a bars image of the requested colour, with an in-range index |
| NetworkStatus.NetworkMenuButton.constructor | chrome/browser/chromeos/status/network_menu_button.cc:29-38 | starts with an empty menu and no requests, then sets the icon as `NetworkChanged` does for the current library |
| NetworkStatus.NetworkMenuButton.GetItemCount | chrome/browser/chromeos/status/network_menu_button.cc:47-49 | the count is the number of menu items |
| NetworkStatus.NetworkMenuButton.GetLabelFontAt | chrome/browser/chromeos/status/network_menu_button.cc:59-63 | the bold font is used iff the item carries `FLAG_BOLD` |
| NetworkStatus.NetworkMenuButton.IsItemCheckedAt | chrome/browser/chromeos/status/network_menu_button.cc:65-68 | every item is reported as checked |
| NetworkStatus.NetworkMenuButton.IsEnabledAt | chrome/browser/chromeos/status/network_menu_button.cc:81-83 | an item is enabled iff it does not carry `FLAG_DISABLED` |
| NetworkStatus.NetworkMenuButton.ActivatedAt | chrome/browser/chromeos/status/network_menu_button.cc:85-135 | while the menu is refreshing, nothing changes. Otherwise the reaction is the one chosen by the item's highest-priority flag: the library switches are flipped and the request log is extended as that reaction demands, and a wifi item records its network as the activated one. The menu, the refresh state and the icon are unchanged |
| NetworkStatus.NetworkMenuButton.OnPasswordDialogAccept | chrome/browser/chromeos/status/network_menu_button.cc:140-145 | returns true, and requests a connection to the recorded wifi network with the typed password; nothing else changes |
| NetworkStatus.NetworkMenuButton.AnimationProgressed | chrome/browser/chromeos/status/network_menu_button.cc:150-160 | the icon becomes the non-black bars image for the progress clamped to 0..100 |
| NetworkStatus.NetworkMenuButton.NetworkChanged | chrome/browser/chromeos/status/network_menu_button.cc:290-319 | from now on the button reads the given library. If the library is not loaded, the icon shows empty bars. While wifi or cellular is connecting, the animation is started, and only a newly started animation resets the icon. Otherwise the animation stops and the icon shows ethernet, then wifi, then cellular, then empty bars, in that order of preference. The icon is always a status image |
| NetworkStatus.NetworkMenuButton.RunMenu | chrome/browser/chromeos/status/network_menu_button.cc:353-360 | afterwards the menu is the one built for the current library and the refresh flag is clear again |
| NetworkStatus.NetworkMenuButton.InitMenuItems | chrome/browser/chromeos/status/network_menu_button.cc:362-459 | replaces the items with `MenuItemsFor(cros, showOptions)` |
| NetworkStatus.NetworkMenuButton.AppendWifiItems | chrome/browser/chromeos/status/network_menu_button.cc:379-389 | appends one entry per wifi network, in list order |
| NetworkStatus.NetworkMenuButton.AppendCellularItems | chrome/browser/chromeos/status/network_menu_button.cc:391-401 | appends one entry per cellular network, in list order |
| NetworkStatus.NetworkMenuButton.AppendTrailingItems | chrome/browser/chromeos/status/network_menu_button.cc:411-458 | appends the separator, the two device switches, the optional options entry and the optional address entry |
| NetworkMenuProperties.MenuItemsAt | chrome/browser/chromeos/status/network_menu_button.cc:362-459 | position of every entry of the built menu: ethernet first, then wifi, then cellular, then "no networks", then the trailing entries |
| NetworkMenuProperties.EthernetEntryFirst | chrome/browser/chromeos/status/network_menu_button.cc:368-377 | the first entry is ethernet. Its icon is wired-black iff ethernet is connecting or connected. Its flags are zero in that case and `FLAG_ETHERNET` otherwise |
| NetworkMenuProperties.NetworkEntries | chrome/browser/chromeos/status/network_menu_button.cc:379-401 | entry 1+k carries wifi network k, its name and the black bars of its strength; cellular entries follow likewise |
| NetworkMenuProperties.NoNetworksEntryIffNoNetworks | chrome/browser/chromeos/status/network_menu_button.cc:403-409 | the "no networks" entry is in the menu iff both network lists are empty |
| NetworkMenuProperties.TrailingItemsShape | chrome/browser/chromeos/status/network_menu_button.cc:411-458 | the trailing entries are a separator, the wifi switch and the cellular switch; then a separator and the options entry when options are shown; then a separator and the address entry when connected |
| NetworkMenuProperties.TrailingEntries | chrome/browser/chromeos/status/network_menu_button.cc:411-458 | the same layout at its position in the whole menu, right after the network entries |
| NetworkMenuProperties.OptionsEntryIffShown | chrome/browser/chromeos/status/network_menu_button.cc:439-448 | the menu has an options entry iff the host allows options |
| NetworkMenuProperties.AddressEntryIffConnected | chrome/browser/chromeos/status/network_menu_button.cc:450-458 | the menu has an IP address entry iff some device is connected |
| NetworkMenuProperties.ItemCountOfBuiltMenu | chrome/browser/chromeos/status/network_menu_button.cc:362-459 | the count after `InitMenuItems`: 4 + networks + (1 if there are none) + 2 for options + 2 when connected |
| NetworkMenuProperties.DisabledEntries | chrome/browser/chromeos/status/network_menu_button.cc:403-409 | a built entry is disabled iff it is "no networks" or the IP address |
| NetworkMenuProperties.NoEntryIsBold | chrome/browser/chromeos/status/network_menu_button.cc:374-375 | no built entry carries `FLAG_BOLD`, because the marks are formed with `&` |
| NetworkMenuProperties.NoCheckEntries | chrome/browser/chromeos/status/network_menu_button.cc:362-459 | the menu has no check items |
| NetworkMenuProperties.ReactionFollowsFirstFlag | chrome/browser/chromeos/status/network_menu_button.cc:92-134 | activation depends only on the highest-priority dispatch flag present |
| NetworkMenuProperties.SwitchNegates | chrome/browser/chromeos/status/network_menu_button.cc:94-101 | the ethernet, wifi and cellular switches each set their own device's enabled flag to the negation of its current value, and the offline switch negates the offline mode; nothing else in the library changes, and any other reaction leaves the library as it was |
| NetworkMenuProperties.SwitchUndoes | chrome/browser/chromeos/status/network_menu_button.cc:94-101 | activating the same switch again restores the library |
| NetworkMenuProperties.SwitchEntriesDoWhatTheySay | chrome/browser/chromeos/status/network_menu_button.cc:421-437 | a built switch captioned "disable X" turns X off, and one captioned "enable X" turns it on |
| NetworkMenuProperties.ConnectionRequests | chrome/browser/chromeos/status/network_menu_button.cc:102-133 | an activation makes at most one request. A connection is only to the item's own network and never to the current one. An open wifi network is joined with an empty password; an encrypted one only opens the password dialog |
| NetworkMenuProperties.WifiEntryReaction | chrome/browser/chromeos/status/network_menu_button.cc:102-126 | the entry of a wifi network does nothing for the current network; for any other network it connects with an empty password if the network is open, and asks for the password if it is encrypted |
| NetworkMenuProperties.CellularEntryReaction | chrome/browser/chromeos/status/network_menu_button.cc:127-134 | the entry of a cellular network does nothing for the current network, and connects to any other |
| NetworkMenuProperties.MarkedEntriesAreInert | chrome/browser/chromeos/status/network_menu_button.cc:374-397 | activating the ethernet entry, or the entry of the current wifi or cellular network, does nothing |
| NetworkMenuProperties.OtherNetworkEntries | chrome/browser/chromeos/status/network_menu_button.cc:102-133 | the entry of a non-current open wifi network connects with an empty password, that of an encrypted one asks for a password, and that of a non-current cellular network connects to it |
| NetworkMenuProperties.BarIndexMonotone | chrome/browser/chromeos/status/network_menu_button.cc:337-344 | a stronger signal never shows fewer bars |
| NetworkMenuProperties.BarIndexScale | chrome/browser/chromeos/status/network_menu_button.cc:339-344 | strengths 0..99 map to `strength*9/100`; 100 and above give the last image; 0 and below give the first |
| NetworkMenuProperties.SteadyIconReflectsConnection | chrome/browser/chromeos/status/network_menu_button.cc:304-312 | the steady icon is wired iff ethernet is connected and empty bars iff nothing is connected |

## Left out

- Drawing (`DrawIcon`, `DrawPressed`, the badges), bitmaps, fonts and resource lookups. Icons are tokens naming the resource, and a bars image is named by its offset from the first bars resource.
- `GetIconAt` down-sampling, `GetTypeAt` and `GetLabelAt`: they are plain accessors or image work. Item types and captions are fields of the modelled items.
- `AnimationProgressed` on animations other than the connecting one, which it delegates to the base class. The animation value is taken as an integer percent, so the float scaling is not modelled.
- The floating-point scaling in `IconForNetworkStrength` is replaced by the integer `strength*9/100`, truncated toward zero. After the clamp the two give the same index for every integer strength; before the clamp they differ at every non-zero multiple of 100 (for example 200 gives 17 against 18, and -100 gives -8 against -9) and, at very large magnitudes, where the float factor's rounding error reaches the next integer. The clamp maps each of these pairs to the same index.
- The password dialog window itself, that is its creation, placement and showing. Opening it is recorded as a `ShowPasswordDialog` request.
- `NetworkLibrary`, the host and their observers are outside this model. Their calls become entries of the `requests` log and flips of the library snapshot's switches. `NetworkLibrary::Get()` and `EnsureLoaded()` are replaced by the snapshot held in the button, which `NetworkChanged` swaps for the library it is given.
- NetworkStatus.NetworkMenuButton.constructor: `refreshing_menu_` is not initialised by the source, so the model takes its initial value as a parameter.
- `Rebuild`, `UpdateStates`, `RunMenuAt`, `SchedulePaint`, `AddObserver` and `RemoveObserver`: they are UI and observer plumbing with no state in this model.
- `NetworkTraffic` and the traffic animations: their code is commented out in the source.
- Localised strings and the UTF-8/UTF-16 conversions. Strings are string identifiers with their arguments.
- The ordering of `SocketPermissionData` inside its `std::set`. The data set is a sequence in the set's iteration order, and the proved results do not depend on that order.
- `SocketPermissionEntry` is a projection of `SocketPermissionData`: the port is dropped and every operation other than NETWORK_STATE is merged into one. Distinct source elements can therefore project to the same model entry, so the listing may repeat an entry. Counts are stated per element of the listing, not per distinct entry.
- `HostSet.Below` orders hosts by Unicode code point, while `std::set<string16>` orders them by UTF-16 code unit. Hosts holding characters above U+FFFF may therefore be listed in a different order than the source lists them.
- `SocketPermissionEntry::IsAddressBoundType` is taken as a field of the entry.
- `HasMessages()` is taken as "the data set is not empty".
- The flag values are assumed to be distinct single bits, because the header that defines them is not part of this model.
- `NetworkLibrary::Connected()` is assumed to mean "some device is connected".
- Default-constructed `WifiNetwork` and `CellularNetwork` values are assumed to have empty names and zero strength.
- An out-of-range index for `IsEnabledAt`, `GetLabelFontAt` or `ActivatedAt`: the source indexes `menu_items_` without a check, which is undefined behaviour, so the model requires the index to be in range.
- `content/public/test/browser_test_utils.h`, `webkit/glue/simple_webmimeregistry_impl.cc` and `remoting/base/vlog_net_log.cc` are not part of this model.
