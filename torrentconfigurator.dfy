/** TorrentConfigurator: the server's torrent settings. The settings live
    in a Properties table that the setters update in place; a setter that
    changes a setting tells every registered listener. What a listener does
    with an event is outside this model: the class records, in order, which
    listener was handed which event. */
module TorrentConfigurator {
  import opened Wrappers
  import opened JavaNumbers
  import opened TorrentUtil

  const TrackerEnabled: string := "torrent.tracker.enabled"
  const DefaultTrackerEnabled: bool := true
  const TrackerDedicatedPort: string := "torrent.tracker.dedicated.port"
  const DefaultTrackerDedicatedPort: bool := false
  const FileSizeThreshold: string := "teamcity.torrent.seeder.minFileSize"
  const DefaultFileSizeThreshold: string := "10mb"
  const UserDownloadEnabled: string := "teamcity.torrent.download.enabled"
  const DefaultDownloadEnabled: bool := false
  const AnnounceInterval: string := "torrent.announce.interval.sec"
  const DefaultAnnounceInterval: int := 60
  const TrackerTorrentExpireTimeout: string := "torrent.tracker.expire.timeout.sec"
  const DefaultTrackerTorrentExpireTimeout: int := 600
  const MaxIncomingConnections: string := "teamcity.torrent.peer.download.maxConnections"
  const DefaultMaxConnections: int := 50
  const SendBufferSize: string := "teamcity.torrent.network.sendBufferSize"
  const ReceiveBufferSize: string := "teamcity.torrent.network.receiveBufferSize"
  const AnnounceUrlKey: string := "announce.url"
  const OwnAddress: string := "teamcity.torrent.network.ownAddress"
  const SeedingEnabled: string := "teamcity.torrent.peer.seeding.enabled"
  const DefaultSeedingEnabled: bool := false
  const MaxNumberOfSeededTorrents: string := "teamcity.torrent.seeder.maxSeedingFiles"
  /** The configurator's own default, which hides the 2000 of SeedSettings. */
  const DefaultMaxNumberOfSeededTorrents: int := 10000
  const SeedingByAgentEnabledStoreKey: string := "teamcity.torrent.agent.seeding.enabled"
  /** LeechSettings.DOWNLOAD_ENABLED and its default. */
  const AgentDownloadEnabled: string := "teamcity.torrent.peer.download.enabled"
  const DefaultAgentDownloadEnabled: bool := false

  /** The old and new values a PropertyChangeEvent carries. */
  datatype Value = BoolValue(b: bool) | NumberValue(n: int) | UrlValue(url: Option<string>)

  datatype Event = Event(propertyName: string, oldValue: Value, newValue: Value)

  /** A registered listener, told apart by its identity; `throws` says
      whether its propertyChange throws. */
  datatype Listener = Listener(id: nat, throws: bool)

  datatype Delivery = Delivery(listener: Listener, event: Event)

  /** One delivery of `e` to each listener, in registration order. */
  function Broadcast(listeners: seq<Listener>, e: Event): (r: seq<Delivery>)
    ensures |r| == |listeners|
    ensures forall j :: 0 <= j < |listeners| ==> r[j] == Delivery(listeners[j], e)
  {
    if listeners == [] then [] else [Delivery(listeners[0], e)] + Broadcast(listeners[1..], e)
  }

  /** A listener that throws is still followed by every later one. The
      try/catch around each call in propertyChanged is why Broadcast never
      consults `throws`; this lemma states that consequence for the
      listener that does throw. */
  lemma ThrowingListenerDoesNotStopOthers(listeners: seq<Listener>, e: Event, k: nat)
    requires k < |listeners| && listeners[k].throws
    ensures forall j :: k < j < |listeners| ==> Delivery(listeners[j], e) in Broadcast(listeners, e)
  {
    var r := Broadcast(listeners, e);
    forall j | k < j < |listeners| ensures Delivery(listeners[j], e) in r {
      assert r[j] == Delivery(listeners[j], e);
    }
  }

  lemma BroadcastAppend(listeners: seq<Listener>, e: Event, i: nat)
    requires i < |listeners|
    ensures Broadcast(listeners[..i + 1], e) == Broadcast(listeners[..i], e) + [Delivery(listeners[i], e)]
  {
    var a := Broadcast(listeners[..i + 1], e);
    var b := Broadcast(listeners[..i], e) + [Delivery(listeners[i], e)];
    assert |a| == |b|;
    forall j | 0 <= j < |a| ensures a[j] == b[j] {
    }
  }

  /** The position of the first occurrence of `x`. */
  function FirstIndex(s: seq<Listener>, x: Listener): (k: nat)
    requires x in s
    ensures k < |s| && s[k] == x && x !in s[..k]
  {
    if s[0] == x then 0
    else
      assert x in s[1..];
      var k := FirstIndex(s[1..], x);
      assert s[..k + 1] == [s[0]] + s[1..][..k];
      k + 1
  }

  /** `ArrayList.remove(o)`: the first occurrence goes, the rest stay in
      order. */
  function RemoveFirst(s: seq<Listener>, x: Listener): (r: seq<Listener>)
    ensures x !in s ==> r == s
    ensures x in s ==> |r| == |s| - 1 && multiset(r) + multiset{x} == multiset(s)
  {
    if s == [] then []
    else
      assert s == [s[0]] + s[1..];
      if s[0] == x then s[1..] else [s[0]] + RemoveFirst(s[1..], x)
  }

  /** The occurrence removed is the first one: everything before it and
      everything after it stays, in order. */
  lemma {:induction false} RemoveFirstAt(s: seq<Listener>, x: Listener)
    requires x in s
    ensures var k := FirstIndex(s, x); RemoveFirst(s, x) == s[..k] + s[k + 1..]
  {
    if s[0] == x {
      assert s[..0] + s[1..] == s[1..];
    } else {
      assert x in s[1..];
      RemoveFirstAt(s[1..], x);
      ConsSplice(s, FirstIndex(s[1..], x));
    }
  }

  lemma ConsSplice(s: seq<Listener>, k: nat)
    requires k + 1 < |s|
    ensures [s[0]] + (s[1..][..k] + s[1..][k + 1..]) == s[..k + 1] + s[k + 2..]
  {
    assert s[..k + 1] == [s[0]] + s[1..][..k];
    assert s[k + 2..] == s[1..][k + 1..];
  }

  /** Removing a listener just added, and not registered before, restores
      the list. */
  lemma {:induction false} AddThenRemove(s: seq<Listener>, x: Listener)
    requires x !in s
    ensures RemoveFirst(s + [x], x) == s
  {
    if s != [] {
      assert (s + [x])[1..] == s[1..] + [x];
      AddThenRemove(s[1..], x);
    }
  }

  /** loadConfiguration: a table that lacks the download flag gets it as
      "false". */
  function WithDownloadDefault(properties: Properties): (r: Properties)
    ensures UserDownloadEnabled in r
    ensures forall k :: k != UserDownloadEnabled ==> (k in r <==> k in properties)
    ensures forall k :: k in properties ==> k in r && r[k] == properties[k]
  {
    if UserDownloadEnabled in properties then properties
    else properties[UserDownloadEnabled := BoolToString(false)]
  }

  /** The added entry spells out the default: whether downloading is on
      reads the same before and after loading. */
  lemma LoadedDownloadFlag(properties: Properties)
    ensures GetBooleanValue(WithDownloadDefault(properties), UserDownloadEnabled, DefaultDownloadEnabled)
            == GetBooleanValue(properties, UserDownloadEnabled, DefaultDownloadEnabled)
    ensures UserDownloadEnabled !in properties ==>
              GetProperty(WithDownloadDefault(properties), UserDownloadEnabled) == Some("false")
  {
    if UserDownloadEnabled !in properties {
      BooleanRoundTrip(properties, UserDownloadEnabled, false, DefaultDownloadEnabled);
    }
  }

  /** The table after a boolean setter, and the event it raises when it
      notifies. */
  function AfterBooleanSet(configuration: Properties, key: string, defaultValue: bool, enabled: bool): Properties {
    if GetBooleanValue(configuration, key, defaultValue) != enabled then configuration[key := BoolToString(enabled)]
    else configuration
  }

  function BooleanEvents(configuration: Properties, listeners: seq<Listener>, key: string, defaultValue: bool, enabled: bool): seq<Delivery> {
    var oldValue := GetBooleanValue(configuration, key, defaultValue);
    if oldValue != enabled then Broadcast(listeners, Event(key, BoolValue(oldValue), BoolValue(enabled))) else []
  }

  /** A boolean setter leaves the setting reading `enabled`, changes no other
      key, and a second identical call changes nothing. */
  lemma BooleanSetSpec(configuration: Properties, listeners: seq<Listener>, key: string, defaultValue: bool, enabled: bool)
    ensures GetBooleanValue(AfterBooleanSet(configuration, key, defaultValue, enabled), key, defaultValue) == enabled
    ensures forall k :: k != key ==> GetProperty(AfterBooleanSet(configuration, key, defaultValue, enabled), k) == GetProperty(configuration, k)
    ensures var after := AfterBooleanSet(configuration, key, defaultValue, enabled);
            AfterBooleanSet(after, key, defaultValue, enabled) == after
            && BooleanEvents(after, listeners, key, defaultValue, enabled) == []
    ensures |BooleanEvents(configuration, listeners, key, defaultValue, enabled)| == if GetBooleanValue(configuration, key, defaultValue) == enabled then 0 else |listeners|
  {
    if GetBooleanValue(configuration, key, defaultValue) != enabled {
      BooleanRoundTrip(configuration, key, enabled, defaultValue);
    }
  }

  /** The same for the integer settings and their events. */
  function AfterIntegerSet(configuration: Properties, key: string, defaultValue: int, value: int): Properties {
    if GetIntegerValue(configuration, key, defaultValue) != value then configuration[key := IntToString(value)]
    else configuration
  }

  function IntegerEvents(configuration: Properties, listeners: seq<Listener>, key: string, defaultValue: int, value: int): seq<Delivery> {
    var oldValue := GetIntegerValue(configuration, key, defaultValue);
    if oldValue != value then Broadcast(listeners, Event(key, NumberValue(oldValue), NumberValue(value))) else []
  }

  lemma IntegerSetSpec(configuration: Properties, listeners: seq<Listener>, key: string, defaultValue: int, value: int)
    requires IsInt32(value)
    ensures GetIntegerValue(AfterIntegerSet(configuration, key, defaultValue, value), key, defaultValue) == value
    ensures forall k :: k != key ==> GetProperty(AfterIntegerSet(configuration, key, defaultValue, value), k) == GetProperty(configuration, k)
    ensures var after := AfterIntegerSet(configuration, key, defaultValue, value);
            AfterIntegerSet(after, key, defaultValue, value) == after
            && IntegerEvents(after, listeners, key, defaultValue, value) == []
  {
    if GetIntegerValue(configuration, key, defaultValue) != value {
      IntegerRoundTrip(configuration, key, value, defaultValue);
    }
  }

  /** The threshold as setFileSizeThresholdMb reads it back: the stored text
      (or "10mb") through `parseFileSize`, 0 when that fails. */
  function StoredThreshold(configuration: Properties, parseFileSize: string -> Option<int>): int {
    var oldValueStr := if FileSizeThreshold in configuration then configuration[FileSizeThreshold] else DefaultFileSizeThreshold;
    match parseFileSize(oldValueStr)
    case Some(v) => v
    case None => 0
  }

  /** The configuration file as the constructor finds it: its stored table
      when it is a regular file; otherwise, after initConfigFile, the table
      with the download flag off when that write succeeded, and no file at
      all when it failed. */
  function OnDisk(stored: Option<Properties>, written: bool): Option<Properties> {
    if stored.Some? then stored
    else if written then Some(map[UserDownloadEnabled := BoolToString(false)])
    else None
  }

  class Configurator {
    /** `myConfiguration`; None is the null it keeps when no load succeeded,
        on which every read of the table throws a NullPointerException. */
    var configuration: Option<Properties>
    var announceUrl: Option<string>
    var listeners: seq<Listener>
    var delivered: seq<Delivery>

    /** `stored` is the file's table when it is a regular file, `written`
        whether initConfigFile could store its table otherwise, and
        `readable` whether the reader could then load the file. Both
        IOExceptions are only logged. */
    constructor (stored: Option<Properties>, written: bool, readable: bool)
      ensures configuration.Some? <==> readable && (stored.Some? || written)
      ensures stored.Some? && readable ==> configuration == Some(WithDownloadDefault(stored.value))
      ensures stored.None? && written && readable ==> configuration == Some(map[UserDownloadEnabled := "false"])
      ensures announceUrl == None && listeners == [] && delivered == []
    {
      configuration := None;
      announceUrl := None;
      listeners := [];
      delivered := [];
      new;
      var onDisk := OnDisk(stored, written);
      LoadConfiguration(if readable then onDisk else None);
      assert onDisk.Some? && stored.None? ==> WithDownloadDefault(onDisk.value) == onDisk.value;
    }

    /** loadConfiguration; None stands for the IOException (a missing or
        unreadable file), which leaves the table as it was. */
    method LoadConfiguration(loaded: Option<Properties>)
      modifies this
      ensures configuration == if loaded.Some? then Some(WithDownloadDefault(loaded.value)) else old(configuration)
      ensures announceUrl == old(announceUrl) && listeners == old(listeners) && delivered == old(delivered)
    {
      if loaded.Some? {
        configuration := Some(WithDownloadDefault(loaded.value));
      }
    }

    /** `TorrentUtil.getBooleanValue(myConfiguration, ...)`, None standing
        for the NullPointerException on a null table. */
    function ReadBoolean(key: string, defaultValue: bool): Option<bool>
      reads this
    {
      if configuration.Some? then Some(GetBooleanValue(configuration.value, key, defaultValue)) else None
    }

    function IsDownloadEnabled(): Option<bool>
      reads this
    {
      ReadBoolean(UserDownloadEnabled, DefaultDownloadEnabled)
    }

    function IsSeedingEnabled(): Option<bool>
      reads this
    {
      ReadBoolean(SeedingEnabled, DefaultSeedingEnabled)
    }

    function IsAgentSeedingEnabled(): Option<bool>
      reads this
    {
      ReadBoolean(SeedingByAgentEnabledStoreKey, DefaultSeedingEnabled)
    }

    function IsAgentDownloadingEnabled(): Option<bool>
      reads this
    {
      ReadBoolean(AgentDownloadEnabled, DefaultAgentDownloadEnabled)
    }

    /** getAnnounceUrl; whether the tracker is on comes from TeamCity's
        server-wide properties and is a parameter. */
    function AnnounceUrl(trackerEnabled: bool): (r: Option<string>)
      reads this
      ensures !trackerEnabled ==> r == None
    {
      if trackerEnabled then announceUrl else None
    }

    /** getOwnTorrentAddress: the stored address, "" when unset, and None for
        the NullPointerException on a null table. */
    function OwnTorrentAddress(): (r: Option<string>)
      reads this
      ensures r.None? <==> configuration.None?
      ensures configuration.Some? && OwnAddress !in configuration.value ==> r == Some("")
    {
      match configuration
      case None => None
      case Some(table) => Some(if OwnAddress in table then table[OwnAddress] else "")
    }

    method AddPropertyChangeListener(listener: Listener)
      modifies this
      ensures listeners == old(listeners) + [listener]
      ensures configuration == old(configuration) && announceUrl == old(announceUrl) && delivered == old(delivered)
    {
      listeners := listeners + [listener];
    }

    method RemovePropertyChangeListener(listener: Listener)
      modifies this
      ensures listeners == RemoveFirst(old(listeners), listener)
      ensures configuration == old(configuration) && announceUrl == old(announceUrl) && delivered == old(delivered)
    {
      listeners := RemoveFirst(listeners, listener);
    }

    /** propertyChanged: each listener in turn is handed the event; an
        exception from one is swallowed and the loop goes on. */
    method PropertyChanged(changedPropertyName: string, oldValue: Value, newValue: Value)
      modifies this
      ensures delivered == old(delivered) + Broadcast(listeners, Event(changedPropertyName, oldValue, newValue))
      ensures configuration == old(configuration) && announceUrl == old(announceUrl) && listeners == old(listeners)
    {
      var event := Event(changedPropertyName, oldValue, newValue);
      var i := 0;
      while i < |listeners|
        invariant 0 <= i <= |listeners|
        invariant delivered == old(delivered) + Broadcast(listeners[..i], event)
        invariant configuration == old(configuration) && announceUrl == old(announceUrl) && listeners == old(listeners)
      {
        BroadcastAppend(listeners, event, i);
        delivered := delivered + [Delivery(listeners[i], event)];
        i := i + 1;
      }
      assert listeners[..|listeners|] == listeners;
    }

    /** The shared body of the boolean setters; `notify` is false for the
        agent settings, which are stored without an event. `threw` is the
        NullPointerException of a null table, raised before anything
        changes. */
    method SetBoolean(key: string, defaultValue: bool, enabled: bool, notify: bool) returns (threw: bool)
      modifies this
      ensures threw <==> old(configuration).None?
      ensures !threw ==> configuration == Some(AfterBooleanSet(old(configuration).value, key, defaultValue, enabled))
                         && delivered == old(delivered) + (if notify then BooleanEvents(old(configuration).value, listeners, key, defaultValue, enabled) else [])
                         && ReadBoolean(key, defaultValue) == Some(enabled)
      ensures threw ==> configuration == old(configuration) && delivered == old(delivered)
      ensures announceUrl == old(announceUrl) && listeners == old(listeners)
    {
      if configuration.None? {
        return true;
      }
      var table := configuration.value;
      BooleanSetSpec(table, listeners, key, defaultValue, enabled);
      var oldValue := GetBooleanValue(table, key, defaultValue);
      if oldValue != enabled {
        configuration := Some(table[key := BoolToString(enabled)]);
        if notify {
          PropertyChanged(key, BoolValue(oldValue), BoolValue(enabled));
        }
      }
      return false;
    }

    method SetAgentDownloadEnabled(enabled: bool) returns (threw: bool)
      modifies this
      ensures threw <==> old(configuration).None?
      ensures !threw ==> configuration == Some(AfterBooleanSet(old(configuration).value, AgentDownloadEnabled, DefaultAgentDownloadEnabled, enabled))
                         && IsAgentDownloadingEnabled() == Some(enabled)
      ensures threw ==> configuration == old(configuration)
      ensures delivered == old(delivered) && announceUrl == old(announceUrl) && listeners == old(listeners)
    {
      threw := SetBoolean(AgentDownloadEnabled, DefaultAgentDownloadEnabled, enabled, false);
    }

    method SetAgentSeedingEnabled(enabled: bool) returns (threw: bool)
      modifies this
      ensures threw <==> old(configuration).None?
      ensures !threw ==> configuration == Some(AfterBooleanSet(old(configuration).value, SeedingByAgentEnabledStoreKey, DefaultSeedingEnabled, enabled))
                         && IsAgentSeedingEnabled() == Some(enabled)
      ensures threw ==> configuration == old(configuration)
      ensures delivered == old(delivered) && announceUrl == old(announceUrl) && listeners == old(listeners)
    {
      threw := SetBoolean(SeedingByAgentEnabledStoreKey, DefaultSeedingEnabled, enabled, false);
    }

    method SetDownloadEnabled(enabled: bool) returns (threw: bool)
      modifies this
      ensures threw <==> old(configuration).None?
      ensures !threw ==> configuration == Some(AfterBooleanSet(old(configuration).value, UserDownloadEnabled, DefaultDownloadEnabled, enabled))
                         && delivered == old(delivered) + BooleanEvents(old(configuration).value, listeners, UserDownloadEnabled, DefaultDownloadEnabled, enabled)
                         && IsDownloadEnabled() == Some(enabled)
      ensures threw ==> configuration == old(configuration) && delivered == old(delivered)
      ensures announceUrl == old(announceUrl) && listeners == old(listeners)
    {
      threw := SetBoolean(UserDownloadEnabled, DefaultDownloadEnabled, enabled, true);
    }

    method SetSeedingEnabled(enabled: bool) returns (threw: bool)
      modifies this
      ensures threw <==> old(configuration).None?
      ensures !threw ==> configuration == Some(AfterBooleanSet(old(configuration).value, SeedingEnabled, DefaultSeedingEnabled, enabled))
                         && delivered == old(delivered) + BooleanEvents(old(configuration).value, listeners, SeedingEnabled, DefaultSeedingEnabled, enabled)
                         && IsSeedingEnabled() == Some(enabled)
      ensures threw ==> configuration == old(configuration) && delivered == old(delivered)
      ensures announceUrl == old(announceUrl) && listeners == old(listeners)
    {
      threw := SetBoolean(SeedingEnabled, DefaultSeedingEnabled, enabled, true);
    }

    method SetTrackerEnabled(enabled: bool) returns (threw: bool)
      modifies this
      ensures threw <==> old(configuration).None?
      ensures !threw ==> configuration == Some(AfterBooleanSet(old(configuration).value, TrackerEnabled, DefaultTrackerEnabled, enabled))
                         && delivered == old(delivered) + BooleanEvents(old(configuration).value, listeners, TrackerEnabled, DefaultTrackerEnabled, enabled)
      ensures threw ==> configuration == old(configuration) && delivered == old(delivered)
      ensures announceUrl == old(announceUrl) && listeners == old(listeners)
    {
      threw := SetBoolean(TrackerEnabled, DefaultTrackerEnabled, enabled, true);
    }

    method SetTrackerUsesDedicatedPort(enabled: bool) returns (threw: bool)
      modifies this
      ensures threw <==> old(configuration).None?
      ensures !threw ==> configuration == Some(AfterBooleanSet(old(configuration).value, TrackerDedicatedPort, DefaultTrackerDedicatedPort, enabled))
                         && delivered == old(delivered) + BooleanEvents(old(configuration).value, listeners, TrackerDedicatedPort, DefaultTrackerDedicatedPort, enabled)
      ensures threw ==> configuration == old(configuration) && delivered == old(delivered)
      ensures announceUrl == old(announceUrl) && listeners == old(listeners)
    {
      threw := SetBoolean(TrackerDedicatedPort, DefaultTrackerDedicatedPort, enabled, true);
    }

    /** The shared body of the integer setters, throwing as SetBoolean does. */
    method SetInteger(key: string, defaultValue: int, value: int) returns (threw: bool)
      requires IsInt32(value)
      modifies this
      ensures threw <==> old(configuration).None?
      ensures !threw ==> configuration == Some(AfterIntegerSet(old(configuration).value, key, defaultValue, value))
                         && delivered == old(delivered) + IntegerEvents(old(configuration).value, listeners, key, defaultValue, value)
                         && GetIntegerValue(configuration.value, key, defaultValue) == value
      ensures threw ==> configuration == old(configuration) && delivered == old(delivered)
      ensures announceUrl == old(announceUrl) && listeners == old(listeners)
    {
      if configuration.None? {
        return true;
      }
      var table := configuration.value;
      IntegerSetSpec(table, listeners, key, defaultValue, value);
      var oldValue := GetIntegerValue(table, key, defaultValue);
      if oldValue != value {
        configuration := Some(table[key := IntToString(value)]);
        PropertyChanged(key, NumberValue(oldValue), NumberValue(value));
      }
      return false;
    }

    method SetMaxNumberOfSeededTorrents(number: int) returns (threw: bool)
      requires IsInt32(number)
      modifies this
      ensures threw <==> old(configuration).None?
      ensures !threw ==> configuration == Some(AfterIntegerSet(old(configuration).value, MaxNumberOfSeededTorrents, DefaultMaxNumberOfSeededTorrents, number))
                         && delivered == old(delivered) + IntegerEvents(old(configuration).value, listeners, MaxNumberOfSeededTorrents, DefaultMaxNumberOfSeededTorrents, number)
      ensures threw ==> configuration == old(configuration) && delivered == old(delivered)
      ensures announceUrl == old(announceUrl) && listeners == old(listeners)
    {
      threw := SetInteger(MaxNumberOfSeededTorrents, DefaultMaxNumberOfSeededTorrents, number);
    }

    method SetAnnounceIntervalSec(sec: int) returns (threw: bool)
      requires IsInt32(sec)
      modifies this
      ensures threw <==> old(configuration).None?
      ensures !threw ==> configuration == Some(AfterIntegerSet(old(configuration).value, AnnounceInterval, DefaultAnnounceInterval, sec))
                         && delivered == old(delivered) + IntegerEvents(old(configuration).value, listeners, AnnounceInterval, DefaultAnnounceInterval, sec)
      ensures threw ==> configuration == old(configuration) && delivered == old(delivered)
      ensures announceUrl == old(announceUrl) && listeners == old(listeners)
    {
      threw := SetInteger(AnnounceInterval, DefaultAnnounceInterval, sec);
    }

    method SetMaxConnectionsCount(maxConnectionsCount: int) returns (threw: bool)
      requires IsInt32(maxConnectionsCount)
      modifies this
      ensures threw <==> old(configuration).None?
      ensures !threw ==> configuration == Some(AfterIntegerSet(old(configuration).value, MaxIncomingConnections, DefaultMaxConnections, maxConnectionsCount))
                         && delivered == old(delivered) + IntegerEvents(old(configuration).value, listeners, MaxIncomingConnections, DefaultMaxConnections, maxConnectionsCount)
      ensures threw ==> configuration == old(configuration) && delivered == old(delivered)
      ensures announceUrl == old(announceUrl) && listeners == old(listeners)
    {
      threw := SetInteger(MaxIncomingConnections, DefaultMaxConnections, maxConnectionsCount);
    }

    method SetTrackerTorrentExpireTimeoutSec(sec: int) returns (threw: bool)
      requires IsInt32(sec)
      modifies this
      ensures threw <==> old(configuration).None?
      ensures !threw ==> configuration == Some(AfterIntegerSet(old(configuration).value, TrackerTorrentExpireTimeout, DefaultTrackerTorrentExpireTimeout, sec))
                         && delivered == old(delivered) + IntegerEvents(old(configuration).value, listeners, TrackerTorrentExpireTimeout, DefaultTrackerTorrentExpireTimeout, sec)
      ensures threw ==> configuration == old(configuration) && delivered == old(delivered)
      ensures announceUrl == old(announceUrl) && listeners == old(listeners)
    {
      threw := SetInteger(TrackerTorrentExpireTimeout, DefaultTrackerTorrentExpireTimeout, sec);
    }

    /** setFileSizeThresholdMb; StringUtil.parseFileSize is a library call
        and a parameter, None standing for its NumberFormatException. */
    method SetFileSizeThresholdMb(threshold: int, parseFileSize: string -> Option<int>) returns (threw: bool)
      modifies this
      ensures threw <==> old(configuration).None?
      ensures !threw ==>
                var table := old(configuration).value;
                var oldValue := StoredThreshold(table, parseFileSize);
                && configuration == Some(if oldValue != threshold then table[FileSizeThreshold := IntToString(threshold)] else table)
                && delivered == old(delivered) + (if oldValue != threshold then Broadcast(listeners, Event(FileSizeThreshold, NumberValue(oldValue), NumberValue(threshold))) else [])
      ensures threw ==> configuration == old(configuration) && delivered == old(delivered)
      ensures announceUrl == old(announceUrl) && listeners == old(listeners)
    {
      if configuration.None? {
        return true;
      }
      var table := configuration.value;
      var oldValue := StoredThreshold(table, parseFileSize);
      if oldValue != threshold {
        configuration := Some(table[FileSizeThreshold := IntToString(threshold)]);
        PropertyChanged(FileSizeThreshold, NumberValue(oldValue), NumberValue(threshold));
      }
      return false;
    }

    /** setReceiveBufferSize and setSendBufferSize store nothing and always
        raise an event whose old value is -1. */
    method SetReceiveBufferSize(newValue: int)
      modifies this
      ensures delivered == old(delivered) + Broadcast(listeners, Event(ReceiveBufferSize, NumberValue(-1), NumberValue(newValue)))
      ensures configuration == old(configuration) && announceUrl == old(announceUrl) && listeners == old(listeners)
    {
      PropertyChanged(ReceiveBufferSize, NumberValue(-1), NumberValue(newValue));
    }

    method SetSendBufferSize(newValue: int)
      modifies this
      ensures delivered == old(delivered) + Broadcast(listeners, Event(SendBufferSize, NumberValue(-1), NumberValue(newValue)))
      ensures configuration == old(configuration) && announceUrl == old(announceUrl) && listeners == old(listeners)
    {
      PropertyChanged(SendBufferSize, NumberValue(-1), NumberValue(newValue));
    }

    /** setAnnounceUrl raises its event even when the URL is unchanged, and
        works on a null table too. */
    method SetAnnounceUrl(url: string)
      modifies this
      ensures announceUrl == Some(url) && AnnounceUrl(true) == Some(url)
      ensures delivered == old(delivered) + Broadcast(listeners, Event(AnnounceUrlKey, UrlValue(old(announceUrl)), UrlValue(Some(url))))
      ensures configuration == old(configuration) && listeners == old(listeners)
    {
      var oldAnnounceUrl := announceUrl;
      announceUrl := Some(url);
      PropertyChanged(AnnounceUrlKey, UrlValue(oldAnnounceUrl), UrlValue(Some(url)));
    }
  }

  /** Setting the download flag twice to the same value: the second call
      changes nothing and tells no one. */
  method RepeatedDownloadSetting(c: Configurator, enabled: bool) returns (threw: bool)
    modifies c
    ensures threw <==> old(c.configuration).None?
    ensures !threw ==> c.IsDownloadEnabled() == Some(enabled)
                       && c.configuration == Some(AfterBooleanSet(old(c.configuration).value, UserDownloadEnabled, DefaultDownloadEnabled, enabled))
                       && c.delivered == old(c.delivered) + BooleanEvents(old(c.configuration).value, c.listeners, UserDownloadEnabled, DefaultDownloadEnabled, enabled)
    ensures threw ==> c.configuration == old(c.configuration) && c.delivered == old(c.delivered)
  {
    threw := c.SetDownloadEnabled(enabled);
    if !threw {
      ghost var once := c.configuration;
      ghost var told := c.delivered;
      BooleanSetSpec(old(c.configuration).value, c.listeners, UserDownloadEnabled, DefaultDownloadEnabled, enabled);
      var again := c.SetDownloadEnabled(enabled);
      assert c.configuration == once && c.delivered == told;
    }
  }

  /** A fresh configurator whose file could be written and read does not
      download, and seeds only once told to. */
  method FreshConfiguratorExample() returns (downloading: Option<bool>, seeding: Option<bool>)
    ensures downloading == Some(false) && seeding == Some(true)
  {
    var c := new Configurator(None, true, true);
    BooleanRoundTrip(map[], UserDownloadEnabled, false, DefaultDownloadEnabled);
    downloading := c.IsDownloadEnabled();
    var threw := c.SetSeedingEnabled(true);
    seeding := c.IsSeedingEnabled();
  }

  /** When neither writing nor reading the file succeeds, the table stays
      null: the getters and the table's setters throw, while the announce
      URL can still be set. */
  method UnloadedConfiguratorExample() returns (downloading: Option<bool>, threw: bool, announced: Option<string>)
    ensures downloading.None? && threw && announced == Some("http://tracker/announce")
  {
    var c := new Configurator(None, false, true);
    downloading := c.IsDownloadEnabled();
    threw := c.SetSeedingEnabled(true);
    c.SetAnnounceUrl("http://tracker/announce");
    announced := c.AnnounceUrl(true);
  }
}
