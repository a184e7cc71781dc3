/** Properties of the network menu button: the shape of the menu it builds,
    what activating each entry does, and the icons it shows. */
module NetworkMenuProperties {
  import opened NetworkStatus

  // ---------------------------------------------------------------------
  // The menu

  /** The entries before the device switches. */
  function ListedItems(cros: NetworkLibrary): seq<MenuItem>
  {
    [EthernetItem(cros)]
    + WifiItems(cros.wifiNetworks, cros.wifiSsid)
    + CellularItems(cros.cellularNetworks, cros.cellularName)
    + (if cros.wifiNetworks == [] && cros.cellularNetworks == [] then [NoNetworksItem] else [])
  }

  /** Where the network entries end and the device switches begin. */
  function ListedCount(cros: NetworkLibrary): nat
  {
    1 + |cros.wifiNetworks| + |cros.cellularNetworks|
    + (if cros.wifiNetworks == [] && cros.cellularNetworks == [] then 1 else 0)
  }

  /** The menu is the listed entries followed by the trailing ones. */
  lemma MenuSplit(cros: NetworkLibrary, showOptions: bool)
    ensures MenuItemsFor(cros, showOptions) == ListedItems(cros) + TrailingItems(cros, showOptions)
    ensures |ListedItems(cros)| == ListedCount(cros)
  {
  }

  /** The listed entries, by position. */
  lemma ListedItemsAt(cros: NetworkLibrary)
    ensures var items := ListedItems(cros);
            var w := |cros.wifiNetworks|;
            var c := |cros.cellularNetworks|;
            && |items| == ListedCount(cros)
            && items[0] == EthernetItem(cros)
            && (forall k :: 0 <= k < w ==> items[1 + k] == WifiItem(cros.wifiNetworks[k], cros.wifiSsid))
            && (forall k :: 0 <= k < c ==> items[1 + w + k] == CellularItem(cros.cellularNetworks[k], cros.cellularName))
            && (w == 0 && c == 0 ==> items[1] == NoNetworksItem)
  {
    var items := ListedItems(cros);
    var wifi := WifiItems(cros.wifiNetworks, cros.wifiSsid);
    var cellular := CellularItems(cros.cellularNetworks, cros.cellularName);
    var front := [EthernetItem(cros)] + wifi;
    var networks := front + cellular;
    var w := |cros.wifiNetworks|;
    assert items == networks + (if w == 0 && cellular == [] then [NoNetworksItem] else []);
    forall k | 0 <= k < w ensures items[1 + k] == WifiItem(cros.wifiNetworks[k], cros.wifiSsid) {
      assert items[1 + k] == networks[1 + k] == front[1 + k] == wifi[k];
    }
    forall k | 0 <= k < |cellular| ensures items[1 + w + k] == CellularItem(cros.cellularNetworks[k], cros.cellularName) {
      assert items[1 + w + k] == networks[1 + w + k] == cellular[k];
    }
  }

  /** The items of the menu, by position. */
  lemma MenuItemsAt(cros: NetworkLibrary, showOptions: bool)
    ensures var items := MenuItemsFor(cros, showOptions);
            var w := |cros.wifiNetworks|;
            var c := |cros.cellularNetworks|;
            var n := ListedCount(cros);
            && |items| == n + |TrailingItems(cros, showOptions)|
            && items[0] == EthernetItem(cros)
            && (forall k :: 0 <= k < w ==> items[1 + k] == WifiItem(cros.wifiNetworks[k], cros.wifiSsid))
            && (forall k :: 0 <= k < c ==> items[1 + w + k] == CellularItem(cros.cellularNetworks[k], cros.cellularName))
            && (w == 0 && c == 0 ==> items[1] == NoNetworksItem)
            && (forall k :: 0 <= k < |TrailingItems(cros, showOptions)| ==> items[n + k] == TrailingItems(cros, showOptions)[k])
  {
    MenuSplit(cros, showOptions);
    ListedItemsAt(cros);
  }

  /** Every entry of the menu has property `P` when every kind of entry the
      menu is built from has it. */
  lemma EveryEntry(cros: NetworkLibrary, showOptions: bool, P: MenuItem -> bool)
    requires P(EthernetItem(cros))
    requires forall network :: network in cros.wifiNetworks ==> P(WifiItem(network, cros.wifiSsid))
    requires forall network :: network in cros.cellularNetworks ==> P(CellularItem(network, cros.cellularName))
    requires cros.wifiNetworks == [] && cros.cellularNetworks == [] ==> P(NoNetworksItem)
    requires forall item :: item in TrailingItems(cros, showOptions) ==> P(item)
    ensures forall k :: 0 <= k < |MenuItemsFor(cros, showOptions)| ==> P(MenuItemsFor(cros, showOptions)[k])
  {
    var items := MenuItemsFor(cros, showOptions);
    var listed := ListedItems(cros);
    var tail := TrailingItems(cros, showOptions);
    var w := |cros.wifiNetworks|;
    var c := |cros.cellularNetworks|;
    MenuSplit(cros, showOptions);
    ListedItemsAt(cros);
    forall k | 0 <= k < |items| ensures P(items[k]) {
      if k >= |listed| {
        assert items[k] == tail[k - |listed|];
        assert tail[k - |listed|] in tail;
      } else if 1 <= k < 1 + w {
        assert items[k] == WifiItem(cros.wifiNetworks[k - 1], cros.wifiSsid);
        assert cros.wifiNetworks[k - 1] in cros.wifiNetworks;
      } else if 1 + w <= k < 1 + w + c {
        assert items[k] == CellularItem(cros.cellularNetworks[k - 1 - w], cros.cellularName);
        assert cros.cellularNetworks[k - 1 - w] in cros.cellularNetworks;
      } else {
        assert items[k] == listed[k];
      }
    }
  }

  /** The ethernet entry comes first. It is marked when ethernet is
      connecting or connected, but its flag is FLAG_ETHERNET & FLAG_BOLD,
      which has no bit set: the marked entry carries no flag at all. */
  lemma EthernetEntryFirst(cros: NetworkLibrary, showOptions: bool)
    ensures var items := MenuItemsFor(cros, showOptions);
            && |items| > 0
            && items[0].caption == DeviceName(EthernetDevice)
            && items[0].icon == (if EthernetActive(cros) then WiredBlack else NetworkDisconnected)
            && items[0].flags == (if EthernetActive(cros) then 0 else FlagEthernet)
  {
    MenuSplit(cros, showOptions);
  }

  /** After it, one entry per wifi network, in list order and carrying that
      network, then one per cellular network likewise; each shows the black
      signal image of its network's strength. */
  lemma NetworkEntries(cros: NetworkLibrary, showOptions: bool)
    ensures var items := MenuItemsFor(cros, showOptions);
            var w := |cros.wifiNetworks|;
            && (forall k :: 0 <= k < w ==>
                  && items[1 + k].wifiNetwork == cros.wifiNetworks[k]
                  && items[1 + k].caption == NetworkName(cros.wifiNetworks[k].ssid)
                  && items[1 + k].icon == Bars(BarIndex(cros.wifiNetworks[k].strength), true))
            && (forall k :: 0 <= k < |cros.cellularNetworks| ==>
                  && items[1 + w + k].cellularNetwork == cros.cellularNetworks[k]
                  && items[1 + w + k].caption == NetworkName(cros.cellularNetworks[k].name)
                  && items[1 + w + k].icon == Bars(BarIndex(cros.cellularNetworks[k].strength), true))
  {
    MenuItemsAt(cros, showOptions);
  }

  /** The disabled "no networks" entry is there iff there is neither a wifi
      nor a cellular network. */
  lemma NoNetworksEntryIffNoNetworks(cros: NetworkLibrary, showOptions: bool)
    ensures var items := MenuItemsFor(cros, showOptions);
            (exists k :: 0 <= k < |items| && items[k].caption == NoNetworks)
            <==> cros.wifiNetworks == [] && cros.cellularNetworks == []
  {
    var items := MenuItemsFor(cros, showOptions);
    if cros.wifiNetworks == [] && cros.cellularNetworks == [] {
      MenuItemsAt(cros, showOptions);
      assert items[1].caption == NoNetworks;
    } else {
      EveryEntry(cros, showOptions, (item: MenuItem) => item.caption != NoNetworks);
    }
  }

  /** The switches, options and address entries, on their own. */
  lemma TrailingItemsShape(cros: NetworkLibrary, showOptions: bool)
    ensures var tail := TrailingItems(cros, showOptions);
            && |tail| == 3 + (if showOptions then 2 else 0) + (if cros.Connected() then 2 else 0)
            && tail[0] == Separator
            && tail[1].flags == FlagToggleWifi
            && tail[2].flags == FlagToggleCellular
            && (showOptions ==> tail[3] == Separator && tail[4].flags == FlagOptions)
            && (cros.Connected() ==> tail[|tail| - 2] == Separator && tail[|tail| - 1] == IpAddressItem(cros))
  {
  }

  /** After the networks: a separator, the wifi switch, the cellular switch;
      then a separator and the options entry iff the host allows options;
      then a separator and the disabled IP address entry iff connected. */
  lemma TrailingEntries(cros: NetworkLibrary, showOptions: bool)
    ensures var items := MenuItemsFor(cros, showOptions);
            var n := ListedCount(cros);
            && |items| == n + 3 + (if showOptions then 2 else 0) + (if cros.Connected() then 2 else 0)
            && items[n] == Separator
            && items[n + 1].flags == FlagToggleWifi
            && items[n + 2].flags == FlagToggleCellular
            && (showOptions ==> items[n + 3] == Separator && items[n + 4].flags == FlagOptions)
            && (cros.Connected() ==> items[|items| - 2] == Separator && items[|items| - 1] == IpAddressItem(cros))
  {
    var items := MenuItemsFor(cros, showOptions);
    var n := ListedCount(cros);
    var tail := TrailingItems(cros, showOptions);
    MenuSplit(cros, showOptions);
    TrailingItemsShape(cros, showOptions);
    assert forall k :: 0 <= k < |tail| ==> items[n + k] == tail[k];
    assert items[|items| - 1] == tail[|tail| - 1];
    assert items[|items| - 2] == tail[|tail| - 2];
  }

  /** The options entry is in the menu iff the host allows options. */
  lemma OptionsEntryIffShown(cros: NetworkLibrary, showOptions: bool)
    ensures var items := MenuItemsFor(cros, showOptions);
            (exists k :: 0 <= k < |items| && items[k].flags == FlagOptions) == showOptions
  {
    var items := MenuItemsFor(cros, showOptions);
    if showOptions {
      TrailingEntries(cros, showOptions);
      assert items[ListedCount(cros) + 4].flags == FlagOptions;
    } else {
      EveryEntry(cros, showOptions, (item: MenuItem) => item.flags != FlagOptions);
    }
  }

  /** The IP address entry is in the menu iff some device is connected. */
  lemma AddressEntryIffConnected(cros: NetworkLibrary, showOptions: bool)
    ensures var items := MenuItemsFor(cros, showOptions);
            (exists k :: 0 <= k < |items| && items[k].caption.IpAddress?) == cros.Connected()
  {
    var items := MenuItemsFor(cros, showOptions);
    if cros.Connected() {
      TrailingEntries(cros, showOptions);
      assert items[|items| - 1].caption.IpAddress?;
    } else {
      EveryEntry(cros, showOptions, (item: MenuItem) => !item.caption.IpAddress?);
    }
  }

  /** The item count of a freshly built menu. */
  lemma ItemCountOfBuiltMenu(cros: NetworkLibrary, showOptions: bool)
    ensures |MenuItemsFor(cros, showOptions)|
            == 4 + |cros.wifiNetworks| + |cros.cellularNetworks|
               + (if cros.wifiNetworks == [] && cros.cellularNetworks == [] then 1 else 0)
               + (if showOptions then 2 else 0) + (if cros.Connected() then 2 else 0)
  {
    TrailingEntries(cros, showOptions);
  }

  /** An entry is enabled iff FLAG_DISABLED is clear. */
  predicate Enabled(item: MenuItem)
  {
    item.flags & FlagDisabled == 0
  }

  /** Exactly two kinds of entry are disabled: "no networks" and the IP
      address; the marked current-network entries, whose flags are zero,
      stay enabled. */
  lemma DisabledEntries(cros: NetworkLibrary, showOptions: bool)
    ensures var items := MenuItemsFor(cros, showOptions);
            forall k :: 0 <= k < |items| ==>
              (!Enabled(items[k]) <==> items[k].caption == NoNetworks || items[k].caption.IpAddress?)
  {
    EveryEntry(cros, showOptions,
               (item: MenuItem) => !Enabled(item) <==> item.caption == NoNetworks || item.caption.IpAddress?);
  }

  /** Because the marks are combined with `&` rather than `|`, no entry of
      the menu carries FLAG_BOLD: no label is drawn in the bold font. */
  lemma NoEntryIsBold(cros: NetworkLibrary, showOptions: bool)
    ensures var items := MenuItemsFor(cros, showOptions);
            forall k :: 0 <= k < |items| ==> items[k].flags & FlagBold == 0
  {
    EveryEntry(cros, showOptions, (item: MenuItem) => item.flags & FlagBold == 0);
  }

  /** The menu has no check items, so IsItemCheckedAt is never consulted for
      an item it builds. */
  lemma NoCheckEntries(cros: NetworkLibrary, showOptions: bool)
    ensures var items := MenuItemsFor(cros, showOptions);
            forall k :: 0 <= k < |items| ==> items[k].kind != CheckItem
  {
    EveryEntry(cros, showOptions, (item: MenuItem) => item.kind != CheckItem);
  }

  // ---------------------------------------------------------------------
  // Activation

  /** The flags ActivatedAt tests, highest priority first. */
  const DispatchOrder: seq<Flags> :=
    [FlagOptions, FlagToggleEthernet, FlagToggleWifi, FlagToggleCellular, FlagToggleOffline, FlagWifi, FlagCellular]

  /** The highest-priority dispatch flag present, or 0. */
  function FirstDispatchFlag(flags: Flags): (first: Flags)
    ensures first == 0 || first in DispatchOrder
  {
    if HasFlag(flags, FlagOptions) then FlagOptions
    else if HasFlag(flags, FlagToggleEthernet) then FlagToggleEthernet
    else if HasFlag(flags, FlagToggleWifi) then FlagToggleWifi
    else if HasFlag(flags, FlagToggleCellular) then FlagToggleCellular
    else if HasFlag(flags, FlagToggleOffline) then FlagToggleOffline
    else if HasFlag(flags, FlagWifi) then FlagWifi
    else if HasFlag(flags, FlagCellular) then FlagCellular
    else 0
  }

  /** Only the highest-priority flag counts: an entry reacts as if it carried
      that flag alone. */
  lemma ReactionFollowsFirstFlag(item: MenuItem, cros: NetworkLibrary)
    ensures ReactionTo(item, cros) == ReactionTo(item.(flags := FirstDispatchFlag(item.flags)), cros)
  {
  }

  /** A switch sets its own setting to the negation of the current value
      and leaves the other settings and the rest of the library as they were;
      every other reaction leaves the library unchanged. */
  lemma SwitchNegates(item: MenuItem, cros: NetworkLibrary)
    ensures var r := ReactionTo(item, cros);
            var after := ApplyToLibrary(cros, r);
            && (r.SetDeviceEnabled? && r.device == EthernetDevice ==>
                  after == cros.(ethernetEnabled := !cros.ethernetEnabled))
            && (r.SetDeviceEnabled? && r.device == WifiDevice ==>
                  after == cros.(wifiEnabled := !cros.wifiEnabled))
            && (r.SetDeviceEnabled? && r.device == CellularDevice ==>
                  after == cros.(cellularEnabled := !cros.cellularEnabled))
            && (r.SetOfflineMode? ==> after == cros.(offlineMode := !cros.offlineMode))
            && (!r.SetDeviceEnabled? && !r.SetOfflineMode? ==> after == cros)
  {
    var f := item.flags;
    if HasFlag(f, FlagOptions) {
    } else if HasFlag(f, FlagToggleEthernet) {
      assert ReactionTo(item, cros) == SetDeviceEnabled(EthernetDevice, !cros.ethernetEnabled);
    } else if HasFlag(f, FlagToggleWifi) {
      assert ReactionTo(item, cros) == SetDeviceEnabled(WifiDevice, !cros.wifiEnabled);
    } else if HasFlag(f, FlagToggleCellular) {
      assert ReactionTo(item, cros) == SetDeviceEnabled(CellularDevice, !cros.cellularEnabled);
    } else if HasFlag(f, FlagToggleOffline) {
      assert ReactionTo(item, cros) == SetOfflineMode(!cros.offlineMode);
    }
  }

  /** Activating a switch twice restores the library. */
  lemma SwitchUndoes(item: MenuItem, cros: NetworkLibrary)
    requires ReactionTo(item, cros).SetDeviceEnabled? || ReactionTo(item, cros).SetOfflineMode?
    ensures var after := ApplyToLibrary(cros, ReactionTo(item, cros));
            ApplyToLibrary(after, ReactionTo(item, after)) == cros
  {
    var f := item.flags;
    var after := ApplyToLibrary(cros, ReactionTo(item, cros));
    if HasFlag(f, FlagToggleEthernet) {
      assert after == cros.(ethernetEnabled := !cros.ethernetEnabled);
    } else if HasFlag(f, FlagToggleWifi) {
      assert after == cros.(wifiEnabled := !cros.wifiEnabled);
    } else if HasFlag(f, FlagToggleCellular) {
      assert after == cros.(cellularEnabled := !cros.cellularEnabled);
    } else {
      assert after == cros.(offlineMode := !cros.offlineMode);
    }
  }

  /** A device switch of the menu does what its caption says: the entry
      captioned "disable wifi" turns wifi off, and so on. */
  lemma SwitchEntriesDoWhatTheySay(cros: NetworkLibrary, showOptions: bool)
    ensures var items := MenuItemsFor(cros, showOptions);
            forall k :: 0 <= k < |items| && (items[k].caption.EnableDevice? || items[k].caption.DisableDevice?) ==>
              ReactionTo(items[k], cros) == SetDeviceEnabled(items[k].caption.device, items[k].caption.EnableDevice?)
  {
    EveryEntry(cros, showOptions,
               (item: MenuItem) => item.caption.EnableDevice? || item.caption.DisableDevice? ==>
                 ReactionTo(item, cros) == SetDeviceEnabled(item.caption.device, item.caption.EnableDevice?));
  }

  /** Any entry: a connection is only ever requested to the entry's own
      network, never to the current one; an open wifi network is joined with
      an empty password, an encrypted one only gets the password dialog. */
  lemma ConnectionRequests(item: MenuItem, cros: NetworkLibrary)
    ensures forall q :: q in RequestsFor(ReactionTo(item, cros)) ==>
              match q
              case OpenButtonOptions => HasFlag(item.flags, FlagOptions)
              case ConnectToWifiNetwork(network, password) =>
                network == item.wifiNetwork && network.ssid != cros.wifiSsid && !network.encrypted && password == ""
              case ShowPasswordDialog(ssid) =>
                ssid == item.wifiNetwork.ssid && ssid != cros.wifiSsid && item.wifiNetwork.encrypted
              case ConnectToCellularNetwork(cellular) =>
                cellular == item.cellularNetwork && cellular.name != cros.cellularName
    ensures |RequestsFor(ReactionTo(item, cros))| <= 1
  {
  }

  /** The entry of a wifi network does nothing for the current network,
      connects to an open one with an empty password, and asks for the
      password of an encrypted one. */
  lemma WifiEntryReaction(network: WifiNetwork, cros: NetworkLibrary)
    ensures var r := ReactionTo(WifiItem(network, cros.wifiSsid), cros);
            && (network.ssid == cros.wifiSsid ==> r == Nothing)
            && (network.ssid != cros.wifiSsid ==>
                  RequestsFor(r) == if network.encrypted then [ShowPasswordDialog(network.ssid)]
                                    else [ConnectToWifiNetwork(network, "")])
  {
  }

  /** The entry of a cellular network does nothing for the current network
      and connects to any other. */
  lemma CellularEntryReaction(network: CellularNetwork, cros: NetworkLibrary)
    ensures var r := ReactionTo(CellularItem(network, cros.cellularName), cros);
            && (network.name == cros.cellularName ==> r == Nothing)
            && (network.name != cros.cellularName ==> RequestsFor(r) == [ConnectToCellularNetwork(network)])
  {
  }

  /** In a built menu the ethernet entry, and the entries of the current wifi
      and cellular networks, react to nothing: their flags are zero. */
  lemma MarkedEntriesAreInert(cros: NetworkLibrary, showOptions: bool)
    ensures var items := MenuItemsFor(cros, showOptions);
            var w := |cros.wifiNetworks|;
            && ReactionTo(items[0], cros) == Nothing
            && (forall k :: 0 <= k < w && cros.wifiNetworks[k].ssid == cros.wifiSsid ==>
                  ReactionTo(items[1 + k], cros) == Nothing)
            && (forall k :: 0 <= k < |cros.cellularNetworks| && cros.cellularNetworks[k].name == cros.cellularName ==>
                  ReactionTo(items[1 + w + k], cros) == Nothing)
  {
    MenuItemsAt(cros, showOptions);
    forall network | network in cros.wifiNetworks {
      WifiEntryReaction(network, cros);
    }
    forall network | network in cros.cellularNetworks {
      CellularEntryReaction(network, cros);
    }
  }

  /** In a built menu, the entry of another wifi network connects to it
      directly when it is open and asks for a password when it is
      encrypted; the entry of another cellular network connects to it. */
  lemma OtherNetworkEntries(cros: NetworkLibrary, showOptions: bool)
    ensures var items := MenuItemsFor(cros, showOptions);
            var w := |cros.wifiNetworks|;
            && (forall k :: 0 <= k < w && cros.wifiNetworks[k].ssid != cros.wifiSsid ==>
                  RequestsFor(ReactionTo(items[1 + k], cros))
                  == if cros.wifiNetworks[k].encrypted then [ShowPasswordDialog(cros.wifiNetworks[k].ssid)]
                     else [ConnectToWifiNetwork(cros.wifiNetworks[k], "")])
            && (forall k :: 0 <= k < |cros.cellularNetworks| && cros.cellularNetworks[k].name != cros.cellularName ==>
                  RequestsFor(ReactionTo(items[1 + w + k], cros)) == [ConnectToCellularNetwork(cros.cellularNetworks[k])])
  {
    MenuItemsAt(cros, showOptions);
    forall network | network in cros.wifiNetworks {
      WifiEntryReaction(network, cros);
    }
    forall network | network in cros.cellularNetworks {
      CellularEntryReaction(network, cros);
    }
  }

  // ---------------------------------------------------------------------
  // Icons

  lemma TruncDivMonotone(a: int, b: int)
    requires a <= b
    ensures TruncDiv(a, 100) <= TruncDiv(b, 100)
  {
    if a < 0 && b >= 0 {
      assert -((-a) / 100) <= 0;
    } else if a < 0 {
      assert (-b) / 100 <= (-a) / 100;
    }
  }

  /** A stronger signal never shows fewer bars. */
  lemma BarIndexMonotone(s1: int, s2: int)
    requires s1 <= s2
    ensures BarIndex(s1) <= BarIndex(s2)
  {
    TruncDivMonotone(s1 * NumWifiImages, s2 * NumWifiImages);
  }

  /** Strengths 0..99 are spread evenly over the nine images; strength 100
      and above shows the last one, negative strengths the first. */
  lemma BarIndexScale(strength: int)
    ensures 0 <= strength < 100 ==> BarIndex(strength) == strength * 9 / 100
    ensures strength >= 100 ==> BarIndex(strength) == NumWifiImages - 1
    ensures strength <= 0 ==> BarIndex(strength) == 0
  {
  }

  /** The steady icon is the wired image iff ethernet is connected, and the
      empty bars iff nothing is connected; it is always a status image. */
  lemma SteadyIconReflectsConnection(cros: NetworkLibrary)
    ensures (SteadyIcon(cros) == Wired) == cros.ethernetConnected
    ensures (SteadyIcon(cros) == BarsZero) == !cros.Connected()
    ensures IsStatusIcon(SteadyIcon(cros))
  {
  }
}
