/** The network status button of the status area
    (chrome/browser/chromeos/status/network_menu_button.cc).

    The button shows an icon for the current network state and, when
    clicked, a menu built from a snapshot of the network library: the
    ethernet device, the wifi and cellular networks, device on/off entries,
    an options entry and the IP address. Activating an entry toggles a
    device or connects to a network. Drawing, fonts, bitmaps and animation
    timing are not modelled: labels and icons are tokens. */
module NetworkStatus {

  // ---------------------------------------------------------------------
  // Menu item flags. MenuItemFlags is declared in a header that is not part
  // of this model; each flag is modelled as its own bit.

  type Flags = bv16

  const FlagDisabled: Flags := 0x001
  const FlagToggleEthernet: Flags := 0x002
  const FlagToggleWifi: Flags := 0x004
  const FlagToggleCellular: Flags := 0x008
  const FlagToggleOffline: Flags := 0x010
  const FlagEthernet: Flags := 0x020
  const FlagWifi: Flags := 0x040
  const FlagCellular: Flags := 0x080
  const FlagOptions: Flags := 0x100
  const FlagBold: Flags := 0x200

  /** `flags & flag` is non-zero. */
  predicate HasFlag(flags: Flags, flag: Flags)
  {
    flags & flag != 0
  }

  /** kNumWifiImages: the number of signal-strength images. */
  const NumWifiImages: int := 9

  // ---------------------------------------------------------------------
  // The network library, as a snapshot of its state

  datatype WifiNetwork = WifiNetwork(ssid: string, encrypted: bool, strength: int)
  datatype CellularNetwork = CellularNetwork(name: string, strength: int)

  /** `WifiNetwork()` and `CellularNetwork()`: the empty networks. */
  const NoWifiNetwork := WifiNetwork("", false, 0)
  const NoCellularNetwork := CellularNetwork("", 0)

  datatype NetworkLibrary = NetworkLibrary(
    loaded: bool,
    ethernetConnecting: bool, ethernetConnected: bool,
    wifiConnecting: bool, wifiConnected: bool,
    cellularConnecting: bool, cellularConnected: bool,
    ethernetEnabled: bool, wifiEnabled: bool, cellularEnabled: bool,
    offlineMode: bool,
    wifiNetworks: seq<WifiNetwork>, cellularNetworks: seq<CellularNetwork>,
    wifiSsid: string, wifiStrength: int,
    cellularName: string, cellularStrength: int,
    ipAddress: string)
  {
    /** NetworkLibrary::Connected(): some device is connected. */
    predicate Connected()
    {
      ethernetConnected || wifiConnected || cellularConnected
    }
  }

  // ---------------------------------------------------------------------
  // Menu items

  datatype Device = EthernetDevice | WifiDevice | CellularDevice

  /** Icon tokens: the resource bitmaps the button and the menu use. */
  datatype Icon =
    | NoIcon                          // an empty SkBitmap()
    | Wired                           // IDR_STATUSBAR_WIRED
    | WiredBlack                      // IDR_STATUSBAR_WIRED_BLACK
    | NetworkDisconnected             // IDR_STATUSBAR_NETWORK_DISCONNECTED
    | BarsZero                        // IDR_STATUSBAR_NETWORK_BARS0
    | Bars(index: int, black: bool)   // IDR_STATUSBAR_NETWORK_BARS1(_BLACK) + index

  /** Label tokens: the localised strings of the menu. */
  datatype Label =
    | NoLabel
    | DeviceName(device: Device)
    | NetworkName(name: string)
    | NoNetworks
    | EnableDevice(device: Device)
    | DisableDevice(device: Device)
    | OpenOptionsDialog
    | IpAddress(address: string)

  /** menus::MenuModel::ItemType. */
  datatype ItemType = CommandItem | CheckItem | SeparatorItem

  datatype MenuItem = MenuItem(
    kind: ItemType,
    caption: Label,
    icon: Icon,
    wifiNetwork: WifiNetwork,
    cellularNetwork: CellularNetwork,
    flags: Flags)

  /** `MenuItem()`: a separator with no flags. */
  const Separator := MenuItem(SeparatorItem, NoLabel, NoIcon, NoWifiNetwork, NoCellularNetwork, 0)

  // ---------------------------------------------------------------------
  // Signal-strength icons

  /** C++ division of ints, which truncates toward zero. */
  function TruncDiv(a: int, b: int): int
    requires b > 0
  {
    if a >= 0 then a / b else -((-a) / b)
  }

  /** The bar image for a strength, before and after the clamp. The scaled
      index is computed as an int: truncating strength * 9 / 100 gives the
      same clamped result as the source's floating-point scaling. */
  function BarIndex(strength: int): (index: int)
    ensures 0 <= index <= NumWifiImages - 1
  {
    var scaled := TruncDiv(strength * NumWifiImages, 100);
    if scaled < 0 then 0
    else if scaled >= NumWifiImages then NumWifiImages - 1
    else scaled
  }

  function IconForNetworkStrength(strength: int, black: bool): (icon: Icon)
    ensures icon.Bars? && icon.black == black
    ensures 0 <= icon.index <= NumWifiImages - 1
  {
    Bars(BarIndex(strength), black)
  }

  /** The images the button itself shows. */
  predicate IsStatusIcon(icon: Icon)
  {
    icon == Wired || icon == BarsZero ||
    (icon.Bars? && !icon.black && 0 <= icon.index <= NumWifiImages - 1)
  }

  /** The button's icon when nothing is connecting: ethernet first, then
      wifi, then cellular, then no bars. */
  function SteadyIcon(cros: NetworkLibrary): Icon
  {
    if cros.ethernetConnected then Wired
    else if cros.wifiConnected then IconForNetworkStrength(cros.wifiStrength, false)
    else if cros.cellularConnected then IconForNetworkStrength(cros.cellularStrength, false)
    else BarsZero
  }

  predicate Connecting(cros: NetworkLibrary)
  {
    cros.wifiConnecting || cros.cellularConnecting
  }

  // ---------------------------------------------------------------------
  // The menu built from a snapshot

  predicate EthernetActive(cros: NetworkLibrary)
  {
    cros.ethernetConnecting || cros.ethernetConnected
  }

  function EthernetItem(cros: NetworkLibrary): MenuItem
  {
    var active := EthernetActive(cros);
    MenuItem(CommandItem, DeviceName(EthernetDevice),
             if active then WiredBlack else NetworkDisconnected,
             NoWifiNetwork, NoCellularNetwork,
             if active then FlagEthernet & FlagBold else FlagEthernet)
  }

  function WifiItem(network: WifiNetwork, currentSsid: string): MenuItem
  {
    MenuItem(CommandItem, NetworkName(network.ssid),
             IconForNetworkStrength(network.strength, true),
             network, NoCellularNetwork,
             if network.ssid == currentSsid then FlagWifi & FlagBold else FlagWifi)
  }

  function CellularItem(network: CellularNetwork, currentName: string): MenuItem
  {
    MenuItem(CommandItem, NetworkName(network.name),
             IconForNetworkStrength(network.strength, true),
             NoWifiNetwork, network,
             if network.name == currentName then FlagCellular & FlagBold else FlagCellular)
  }

  function WifiItems(networks: seq<WifiNetwork>, currentSsid: string): (items: seq<MenuItem>)
    ensures |items| == |networks|
    ensures forall i :: 0 <= i < |networks| ==> items[i] == WifiItem(networks[i], currentSsid)
  {
    seq(|networks|, i requires 0 <= i < |networks| => WifiItem(networks[i], currentSsid))
  }

  function CellularItems(networks: seq<CellularNetwork>, currentName: string): (items: seq<MenuItem>)
    ensures |items| == |networks|
    ensures forall i :: 0 <= i < |networks| ==> items[i] == CellularItem(networks[i], currentName)
  {
    seq(|networks|, i requires 0 <= i < |networks| => CellularItem(networks[i], currentName))
  }

  const NoNetworksItem := MenuItem(CommandItem, NoNetworks, NoIcon, NoWifiNetwork, NoCellularNetwork, FlagDisabled)

  function ToggleLabel(enabled: bool, device: Device): Label
  {
    if enabled then DisableDevice(device) else EnableDevice(device)
  }

  function ToggleWifiItem(cros: NetworkLibrary): MenuItem
  {
    MenuItem(CommandItem, ToggleLabel(cros.wifiEnabled, WifiDevice), NoIcon,
             NoWifiNetwork, NoCellularNetwork, FlagToggleWifi)
  }

  function ToggleCellularItem(cros: NetworkLibrary): MenuItem
  {
    MenuItem(CommandItem, ToggleLabel(cros.cellularEnabled, CellularDevice), NoIcon,
             NoWifiNetwork, NoCellularNetwork, FlagToggleCellular)
  }

  const OptionsItem := MenuItem(CommandItem, OpenOptionsDialog, NoIcon, NoWifiNetwork, NoCellularNetwork, FlagOptions)

  function IpAddressItem(cros: NetworkLibrary): MenuItem
  {
    MenuItem(CommandItem, IpAddress(cros.ipAddress), NoIcon, NoWifiNetwork, NoCellularNetwork, FlagDisabled)
  }

  /** The entries after the network list. */
  function TrailingItems(cros: NetworkLibrary, showOptions: bool): seq<MenuItem>
  {
    [Separator, ToggleWifiItem(cros), ToggleCellularItem(cros)]
    + (if showOptions then [Separator, OptionsItem] else [])
    + (if cros.Connected() then [Separator, IpAddressItem(cros)] else [])
  }

  /** The whole menu for a snapshot; `showOptions` is the host's
      ShouldOpenButtonOptions answer. */
  function MenuItemsFor(cros: NetworkLibrary, showOptions: bool): seq<MenuItem>
  {
    [EthernetItem(cros)]
    + WifiItems(cros.wifiNetworks, cros.wifiSsid)
    + CellularItems(cros.cellularNetworks, cros.cellularName)
    + (if cros.wifiNetworks == [] && cros.cellularNetworks == [] then [NoNetworksItem] else [])
    + TrailingItems(cros, showOptions)
  }

  // ---------------------------------------------------------------------
  // Activation

  datatype WifiStep = AlreadyCurrent | ConnectOpen | AskPassword

  /** What activating an entry does. */
  datatype Reaction =
    | Nothing
    | OpenOptions
    | SetDeviceEnabled(device: Device, enable: bool)
    | SetOfflineMode(offline: bool)
    | WifiChosen(network: WifiNetwork, step: WifiStep)
    | CellularChosen(cellular: CellularNetwork, alreadyCurrent: bool)

  /** Calls the button makes on its host and on the network library, other
      than the device and offline switches. */
  datatype Request =
    | OpenButtonOptions
    | ConnectToWifiNetwork(network: WifiNetwork, password: string)
    | ConnectToCellularNetwork(cellular: CellularNetwork)
    | ShowPasswordDialog(ssid: string)

  /** The dispatch of ActivatedAt, in its order of priority. */
  function ReactionTo(item: MenuItem, cros: NetworkLibrary): Reaction
  {
    var f := item.flags;
    if HasFlag(f, FlagOptions) then OpenOptions
    else if HasFlag(f, FlagToggleEthernet) then SetDeviceEnabled(EthernetDevice, !cros.ethernetEnabled)
    else if HasFlag(f, FlagToggleWifi) then SetDeviceEnabled(WifiDevice, !cros.wifiEnabled)
    else if HasFlag(f, FlagToggleCellular) then SetDeviceEnabled(CellularDevice, !cros.cellularEnabled)
    else if HasFlag(f, FlagToggleOffline) then SetOfflineMode(!cros.offlineMode)
    else if HasFlag(f, FlagWifi) then
      WifiChosen(item.wifiNetwork,
                 if item.wifiNetwork.ssid == cros.wifiSsid then AlreadyCurrent
                 else if !item.wifiNetwork.encrypted then ConnectOpen
                 else AskPassword)
    else if HasFlag(f, FlagCellular) then
      CellularChosen(item.cellularNetwork, item.cellularNetwork.name == cros.cellularName)
    else Nothing
  }

  /** The library after the device and offline switches of a reaction. */
  function ApplyToLibrary(cros: NetworkLibrary, r: Reaction): NetworkLibrary
  {
    match r
    case SetDeviceEnabled(EthernetDevice, on) => cros.(ethernetEnabled := on)
    case SetDeviceEnabled(WifiDevice, on) => cros.(wifiEnabled := on)
    case SetDeviceEnabled(CellularDevice, on) => cros.(cellularEnabled := on)
    case SetOfflineMode(on) => cros.(offlineMode := on)
    case _ => cros
  }

  /** The calls a reaction makes. */
  function RequestsFor(r: Reaction): seq<Request>
  {
    match r
    case OpenOptions => [OpenButtonOptions]
    case WifiChosen(network, ConnectOpen) => [ConnectToWifiNetwork(network, "")]
    case WifiChosen(network, AskPassword) => [ShowPasswordDialog(network.ssid)]
    case CellularChosen(cellular, false) => [ConnectToCellularNetwork(cellular)]
    case _ => []
  }

  // ---------------------------------------------------------------------
  // The button

  datatype Font = DefaultFont | BoldFont

  class NetworkMenuButton {
    /** The network library the button observes (NetworkLibrary::Get()). */
    var cros: NetworkLibrary
    var menuItems: seq<MenuItem>
    var refreshingMenu: bool
    var activatedWifiNetwork: WifiNetwork
    var icon: Icon
    /** Whether animation_connecting_ is running. */
    var connectingAnimation: bool
    /** The calls made so far on the host and the library. */
    var requests: seq<Request>

    predicate Valid()
      reads this
    {
      IsStatusIcon(icon)
    }

    /** `refreshing_menu_` is not initialised by the source's constructor:
        its initial value is the parameter `refreshing`. */
    constructor (library: NetworkLibrary, refreshing: bool)
      ensures Valid()
      ensures cros == library && menuItems == [] && refreshingMenu == refreshing
      ensures activatedWifiNetwork == NoWifiNetwork && requests == []
      ensures !library.loaded ==> icon == BarsZero && !connectingAnimation
      ensures library.loaded && Connecting(library) ==> icon == Bars(0, false) && connectingAnimation
      ensures library.loaded && !Connecting(library) ==> icon == SteadyIcon(library) && !connectingAnimation
    {
      cros := library;
      menuItems := [];
      refreshingMenu := refreshing;
      activatedWifiNetwork := NoWifiNetwork;
      icon := BarsZero;
      connectingAnimation := false;
      requests := [];
      new;
      NetworkChanged(library);
    }

    // MenuModel

    function GetItemCount(): (n: int)
      reads this
      ensures n == |menuItems|
    {
      |menuItems|
    }

    /** Every check item is checked. */
    function IsItemCheckedAt(index: int): (checked: bool)
      ensures checked
    {
      true
    }

    function IsEnabledAt(index: int): (enabled: bool)
      reads this
      requires 0 <= index < |menuItems|
      ensures enabled <==> menuItems[index].flags & FlagDisabled == 0
    {
      !HasFlag(menuItems[index].flags, FlagDisabled)
    }

    function GetLabelFontAt(index: int): (font: Font)
      reads this
      requires 0 <= index < |menuItems|
      ensures font == BoldFont <==> menuItems[index].flags & FlagBold != 0
    {
      if HasFlag(menuItems[index].flags, FlagBold) then BoldFont else DefaultFont
    }

    method ActivatedAt(index: int)
      requires refreshingMenu || 0 <= index < |menuItems|
      modifies this
      ensures old(refreshingMenu) ==>
                cros == old(cros) && requests == old(requests) && activatedWifiNetwork == old(activatedWifiNetwork)
      ensures !old(refreshingMenu) ==>
                var r := ReactionTo(old(menuItems[index]), old(cros));
                && cros == ApplyToLibrary(old(cros), r)
                && requests == old(requests) + RequestsFor(r)
                && activatedWifiNetwork == (if r.WifiChosen? then r.network else old(activatedWifiNetwork))
      ensures menuItems == old(menuItems) && refreshingMenu == old(refreshingMenu)
      ensures icon == old(icon) && connectingAnimation == old(connectingAnimation)
    {
      // When the menu is being refreshed, activation is ignored.
      if refreshingMenu {
        return;
      }
      var item := menuItems[index];
      if HasFlag(item.flags, FlagOptions) {
        requests := requests + [OpenButtonOptions];
      } else if HasFlag(item.flags, FlagToggleEthernet) {
        cros := cros.(ethernetEnabled := !cros.ethernetEnabled);
      } else if HasFlag(item.flags, FlagToggleWifi) {
        cros := cros.(wifiEnabled := !cros.wifiEnabled);
      } else if HasFlag(item.flags, FlagToggleCellular) {
        cros := cros.(cellularEnabled := !cros.cellularEnabled);
      } else if HasFlag(item.flags, FlagToggleOffline) {
        cros := cros.(offlineMode := !cros.offlineMode);
      } else if HasFlag(item.flags, FlagWifi) {
        activatedWifiNetwork := item.wifiNetwork;
        // Already connected or connecting to it: nothing to do.
        if activatedWifiNetwork.ssid == cros.wifiSsid {
          return;
        }
        if !activatedWifiNetwork.encrypted {
          requests := requests + [ConnectToWifiNetwork(activatedWifiNetwork, "")];
        } else {
          requests := requests + [ShowPasswordDialog(activatedWifiNetwork.ssid)];
        }
      } else if HasFlag(item.flags, FlagCellular) {
        if item.cellularNetwork.name == cros.cellularName {
          return;
        }
        requests := requests + [ConnectToCellularNetwork(item.cellularNetwork)];
      }
    }

    /** The password dialog was accepted: connect to the wifi network last
        activated. The ssid argument is not used. */
    method OnPasswordDialogAccept(ssid: string, password: string) returns (accepted: bool)
      modifies this
      ensures accepted
      ensures requests == old(requests) + [ConnectToWifiNetwork(activatedWifiNetwork, password)]
      ensures cros == old(cros) && menuItems == old(menuItems) && refreshingMenu == old(refreshingMenu)
      ensures activatedWifiNetwork == old(activatedWifiNetwork)
      ensures icon == old(icon) && connectingAnimation == old(connectingAnimation)
    {
      requests := requests + [ConnectToWifiNetwork(activatedWifiNetwork, password)];
      return true;
    }

    /** The connecting animation moved to `percent` (its current value times
        100, truncated); the icon follows it. */
    method AnimationProgressed(percent: int)
      modifies this`icon
      ensures Valid()
      ensures icon == IconForNetworkStrength(if percent < 0 then 0 else if percent > 100 then 100 else percent, false)
    {
      var value := percent;
      if value < 0 {
        value := 0;
      } else if value > 100 {
        value := 100;
      }
      icon := IconForNetworkStrength(value, false);
    }

    /** The library reported a change: from now on the button reads the new
        state, and the icon and the connecting animation follow it. */
    method NetworkChanged(library: NetworkLibrary)
      requires Valid()
      modifies this`cros, this`icon, this`connectingAnimation
      ensures Valid()
      ensures cros == library
      ensures !library.loaded ==> icon == BarsZero && connectingAnimation == old(connectingAnimation)
      ensures library.loaded && Connecting(library) ==>
                && connectingAnimation
                && icon == (if old(connectingAnimation) then old(icon) else Bars(0, false))
      ensures library.loaded && !Connecting(library) ==> !connectingAnimation && icon == SteadyIcon(library)
    {
      cros := library;
      if library.loaded {
        if library.wifiConnecting || library.cellularConnecting {
          // Start the connecting animation if it is not running.
          if !connectingAnimation {
            connectingAnimation := true;
            icon := Bars(0, false);
          }
        } else {
          connectingAnimation := false;
          if library.ethernetConnected {
            icon := Wired;
          } else if library.wifiConnected {
            icon := IconForNetworkStrength(library.wifiStrength, false);
          } else if library.cellularConnected {
            icon := IconForNetworkStrength(library.cellularStrength, false);
          } else {
            icon := BarsZero;
          }
        }
      } else {
        icon := BarsZero;
      }
    }

    /** Rebuilds the menu, with activation switched off meanwhile, then shows it. */
    method RunMenu(showOptions: bool)
      modifies this`refreshingMenu, this`menuItems
      ensures !refreshingMenu
      ensures menuItems == MenuItemsFor(cros, showOptions)
    {
      refreshingMenu := true;
      InitMenuItems(showOptions);
      refreshingMenu := false;
    }

    /** Discards the menu and builds it again from the library's state. */
    method InitMenuItems(showOptions: bool)
      modifies this`menuItems
      ensures menuItems == MenuItemsFor(cros, showOptions)
    {
      menuItems := [];
      var lib := cros;

      // Ethernet
      var active := lib.ethernetConnecting || lib.ethernetConnected;
      var flag := if active then FlagEthernet & FlagBold else FlagEthernet;
      menuItems := menuItems + [MenuItem(CommandItem, DeviceName(EthernetDevice),
                                         if active then WiredBlack else NetworkDisconnected,
                                         NoWifiNetwork, NoCellularNetwork, flag)];

      // Wifi
      AppendWifiItems(lib.wifiNetworks, lib.wifiSsid);
      // Cellular
      AppendCellularItems(lib.cellularNetworks, lib.cellularName);
      ghost var networks := menuItems;
      assert networks == [EthernetItem(lib)] + WifiItems(lib.wifiNetworks, lib.wifiSsid)
                         + CellularItems(lib.cellularNetworks, lib.cellularName);

      // No networks available.
      if |lib.wifiNetworks| == 0 && |lib.cellularNetworks| == 0 {
        menuItems := menuItems + [MenuItem(CommandItem, NoNetworks, NoIcon, NoWifiNetwork, NoCellularNetwork, FlagDisabled)];
      }
      ghost var listed := menuItems;
      assert listed == networks + (if lib.wifiNetworks == [] && lib.cellularNetworks == [] then [NoNetworksItem] else []);

      AppendTrailingItems(lib, showOptions);
    }

    /** The part of InitMenuItems after the network list: the device
        switches, then the options entry if the host allows it, then the IP
        address if connected, each group after a separator. */
    method AppendTrailingItems(lib: NetworkLibrary, showOptions: bool)
      modifies this`menuItems
      ensures menuItems == old(menuItems) + TrailingItems(lib, showOptions)
    {
      ghost var listed := menuItems;
      menuItems := menuItems + [Separator];

      // Turn wifi on or off.
      var caption := if lib.wifiEnabled then DisableDevice(WifiDevice) else EnableDevice(WifiDevice);
      menuItems := menuItems + [MenuItem(CommandItem, caption, NoIcon, NoWifiNetwork, NoCellularNetwork, FlagToggleWifi)];

      // Turn cellular on or off.
      caption := if lib.cellularEnabled then DisableDevice(CellularDevice) else EnableDevice(CellularDevice);
      menuItems := menuItems + [MenuItem(CommandItem, caption, NoIcon, NoWifiNetwork, NoCellularNetwork, FlagToggleCellular)];
      ghost var toggles := menuItems;
      assert toggles == listed + [Separator, ToggleWifiItem(lib), ToggleCellularItem(lib)];

      if showOptions {
        menuItems := menuItems + [Separator];
        menuItems := menuItems + [MenuItem(CommandItem, OpenOptionsDialog, NoIcon, NoWifiNetwork, NoCellularNetwork, FlagOptions)];
      }

      // IP address
      ghost var options := menuItems;
      assert options == toggles + (if showOptions then [Separator, OptionsItem] else []);
      if lib.ethernetConnected || lib.wifiConnected || lib.cellularConnected {
        menuItems := menuItems + [Separator];
        menuItems := menuItems + [MenuItem(CommandItem, IpAddress(lib.ipAddress), NoIcon,
                                           NoWifiNetwork, NoCellularNetwork, FlagDisabled)];
      }
      assert menuItems == options + (if lib.Connected() then [Separator, IpAddressItem(lib)] else []);
      ghost var optional := if showOptions then [Separator, OptionsItem] else [];
      ghost var address := if lib.Connected() then [Separator, IpAddressItem(lib)] else [];
      ghost var switches := [Separator, ToggleWifiItem(lib), ToggleCellularItem(lib)];
      assert TrailingItems(lib, showOptions) == switches + optional + address;
      assert menuItems == listed + (switches + optional + address);
    }

    /** The wifi part of InitMenuItems: one entry per network, in order. */
    method AppendWifiItems(networks: seq<WifiNetwork>, currentSsid: string)
      modifies this`menuItems
      ensures menuItems == old(menuItems) + WifiItems(networks, currentSsid)
    {
      ghost var before := menuItems;
      for i := 0 to |networks|
        invariant menuItems == before + WifiItems(networks[..i], currentSsid)
      {
        var flag := if networks[i].ssid == currentSsid then FlagWifi & FlagBold else FlagWifi;
        menuItems := menuItems + [MenuItem(CommandItem, NetworkName(networks[i].ssid),
                                           IconForNetworkStrength(networks[i].strength, true),
                                           networks[i], NoCellularNetwork, flag)];
        assert WifiItems(networks[..i + 1], currentSsid) == WifiItems(networks[..i], currentSsid) + [WifiItem(networks[i], currentSsid)];
      }
      assert networks[..|networks|] == networks;
    }

    /** The cellular part of InitMenuItems: one entry per network, in order. */
    method AppendCellularItems(networks: seq<CellularNetwork>, currentName: string)
      modifies this`menuItems
      ensures menuItems == old(menuItems) + CellularItems(networks, currentName)
    {
      ghost var before := menuItems;
      for i := 0 to |networks|
        invariant menuItems == before + CellularItems(networks[..i], currentName)
      {
        var flag := if networks[i].name == currentName then FlagCellular & FlagBold else FlagCellular;
        menuItems := menuItems + [MenuItem(CommandItem, NetworkName(networks[i].name),
                                           IconForNetworkStrength(networks[i].strength, true),
                                           NoWifiNetwork, networks[i], flag)];
        assert CellularItems(networks[..i + 1], currentName) == CellularItems(networks[..i], currentName) + [CellularItem(networks[i], currentName)];
      }
      assert networks[..|networks|] == networks;
    }
  }
}
