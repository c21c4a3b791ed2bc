// Model of the tinyiiod glue (projects/drivers/tinyiiod/tinyiiod_util.c):
// attribute lookup in NULL-terminated attribute maps, the device registry,
// the three-level routing of an attribute read or write (device, channel,
// attribute), the context XML and the channel mask of open_dev/get_mask.

module Tinyiiod {
  import opened Common
  import Iio

  type Name = seq<byte>

  // ---------------------------------------------------------------------
  // Attribute maps and get_attribute_id
  // ---------------------------------------------------------------------

  /**
   * One attribute_map entry: its name, its exec callback (an opaque
   * handler number, None for NULL) and the sub-maps it leads to (None for
   * NULL). A map is the entries before its all-zero terminator.
   */
  datatype Entry = Entry(
    name: Name,
    exec: Option<nat>,
    mapIn: Option<seq<Entry>>,
    mapOut: Option<seq<Entry>>,
    mapInGlobal: Option<seq<Entry>>,
    mapOutGlobal: Option<seq<Entry>>)

  /** A pointer to an attribute map: NULL, or the entries before the terminator. */
  type Table = Option<seq<Entry>>

  /** The all-zero entry that ends every map. */
  const TERMINATOR: Entry := Entry([], None, None, None, None, None)

  /** map->field reads the first entry, the terminator when the map is empty. */
  function Head(t: seq<Entry>): (e: Entry)
    ensures t == [] ==> e == TERMINATOR
    ensures t != [] ==> e == t[0]
  {
    if t == [] then TERMINATOR else t[0]
  }

  /** The names of a map's entries, in order. */
  function EntryNames(t: seq<Entry>): (r: seq<Name>)
    ensures |r| == |t| && forall i :: 0 <= i < |t| ==> r[i] == t[i].name
  {
    if t == [] then [] else EntryNames(t[..|t| - 1]) + [t[|t| - 1].name]
  }

  /**
   * What get_attribute_id returns: -EINVAL for a NULL map, the index of
   * the first entry of that name, or -ENODEV when there is none.
   */
  function AttributeId(attr: Name, table: Table): (r: int)
    ensures r == -EINVAL <==> table.None?
    ensures r == -ENODEV <==> table.Some? && attr !in EntryNames(table.value)
    ensures r >= 0 <==> table.Some? && attr in EntryNames(table.value)
    ensures r >= 0 ==> r < |table.value| && table.value[r].name == attr
                       && forall k :: 0 <= k < r ==> table.value[k].name != attr
  {
    if table.None? then -EINVAL
    else
      var i := Iio.IndexOf(attr, EntryNames(table.value));
      if i < 0 then -ENODEV else i
  }

  /** get_attribute_id: walk the map up to its terminator and return the first match. */
  method GetAttributeId(attr: Name, table: Table) returns (id: int)
    ensures id == AttributeId(attr, table)
  {
    if table.None? {
      return -EINVAL;
    }
    var t := table.value;
    var i := 0;
    while i < |t|
      invariant 0 <= i <= |t|
      invariant forall k :: 0 <= k < i ==> EntryNames(t)[k] != attr
    {
      if t[i].name == attr {
        return i;
      }
      i := i + 1;
    }
    return -ENODEV;
  }

  // ---------------------------------------------------------------------
  // The device registry: tinyiiod_register_device and get_device
  // ---------------------------------------------------------------------

  /** The pointer size of the 32-bit targets the project builds for. */
  const PTR_SIZE: nat := 4

  /** Offset of number_of_dev in struct tinyiiod_devices: right after the devices pointer. */
  function CountOffset(p: nat): nat
  {
    p
  }

  /**
   * sizeof(tinyiiod_devices): the pointer and the uint8_t count, padded to
   * the pointer's alignment.
   */
  function DevicesStructSize(p: nat): (r: nat)
    requires p == 4 || p == 8
    ensures r % p == 0 && CountOffset(p) + 1 <= r
  {
    2 * p
  }

  /** What tinyiiod_register_device allocates for the registry as written: sizeof(tinyiiod_devices *). */
  function AllocatedAsWritten(p: nat): nat
  {
    p
  }

  /** The allocation as written ends where number_of_dev begins; the struct's size covers it. */
  lemma CountOutsideAllocation(p: nat)
    requires p == 4 || p == 8
    ensures CountOffset(p) >= AllocatedAsWritten(p)
    ensures CountOffset(p) + 1 <= DevicesStructSize(p)
  {
  }

  /** struct tinyiiod_device: name, channel count and attribute map (the instance pointer and XML callback are opaque). */
  class TinyDevice {
    const name: Name
    const numChannels: bv16
    const attrMap: Table

    constructor(name: Name, numChannels: bv16, attrMap: Table)
      ensures this.name == name && this.numChannels == numChannels && this.attrMap == attrMap
    {
      this.name := name;
      this.numChannels := numChannels;
      this.attrMap := attrMap;
    }
  }

  /** The names of the registered devices, in slot order. */
  function NamesOf(t: seq<TinyDevice>): (r: seq<Name>)
    ensures |r| == |t| && forall i :: 0 <= i < |t| ==> r[i] == t[i].name
  {
    if t == [] then [] else NamesOf(t[..|t| - 1]) + [t[|t| - 1].name]
  }

  /**
   * A device registered after others is found by name unless an earlier
   * device has that name, and an earlier device is still found where it was.
   */
  lemma RegisteredDeviceIsFound(t: seq<TinyDevice>, dev: TinyDevice, name: Name)
    ensures name in NamesOf(t) ==> Iio.IndexOf(name, NamesOf(t + [dev])) == Iio.IndexOf(name, NamesOf(t))
    ensures name !in NamesOf(t) && dev.name == name ==> Iio.IndexOf(name, NamesOf(t + [dev])) == |t|
  {
    assert (t + [dev])[..|t|] == t;
    Iio.FirstRegisteredWins(name, NamesOf(t), dev.name);
  }

  /**
   * The global tinyiiod_devs: NULL until the first registration (created),
   * then the table of devices and number_of_dev. allocSize is the size of
   * the registry struct's allocation.
   */
  class TinyDevices {
    var created: bool
    var count: nat
    var devices: seq<TinyDevice>
    ghost var allocSize: nat

    constructor()
      ensures !created && count == 0 && devices == []
    {
      created := false;
      count := 0;
      devices := [];
      allocSize := 0;
    }

    /** number_of_dev fits its uint8_t, counts the table, and lies inside the registry's allocation. */
    ghost predicate Valid()
      reads this
    {
      && count < 0x100 && |devices| == count
      && (!created ==> count == 0)
      && (created ==> CountOffset(PTR_SIZE) + 1 <= allocSize)
    }

    /** A registry get_device may dereference. */
    ghost predicate Complete()
      reads this
    {
      Valid() && created
    }

    function Names(): (r: seq<Name>)
      reads this
      ensures |r| == |devices|
    {
      NamesOf(devices)
    }

    /** The device get_device finds: the first registered with that name, or null. */
    function Find(name: Name): (r: TinyDevice?)
      reads this
      ensures r == null <==> name !in Names()
      ensures r != null ==> r.name == name && r == devices[Iio.IndexOf(name, Names())]
    {
      var i := Iio.IndexOf(name, Names());
      if i < 0 then null else devices[i]
    }

    /**
     * tinyiiod_register_device: allocate the registry on first use (with
     * the struct's size), otherwise bump number_of_dev and grow the table by
     * one slot; then store the new device in the last slot. The
     * allocations are not checked, so the call always returns 0.
     */
    method RegisterDevice(name: Name, numChannels: bv16, attrMap: Table) returns (ret: int, dev: TinyDevice)
      requires Valid() && count < 0xFF
      modifies this
      ensures Valid() && created && ret == 0
      ensures count == old(count) + 1 && devices == old(devices) + [dev]
      ensures fresh(dev) && dev.name == name && dev.numChannels == numChannels && dev.attrMap == attrMap
    {
      if !created {
        created := true;
        allocSize := DevicesStructSize(PTR_SIZE);
        count := 1;
      } else {
        count := count + 1;
      }
      dev := new TinyDevice(name, numChannels, attrMap);
      devices := devices + [dev];
      ret := 0;
    }

    /** get_device: the first of the number_of_dev devices whose name matches, or NULL. */
    method GetDevice(name: Name) returns (dev: TinyDevice?)
      requires Complete()
      ensures dev == Find(name)
    {
      var i := 0;
      while i < count
        invariant 0 <= i <= count
        invariant forall k :: 0 <= k < i ==> Names()[k] != name
      {
        if devices[i].name == name {
          return devices[i];
        }
        i := i + 1;
      }
      return null;
    }
  }

  // ---------------------------------------------------------------------
  // rd_wr_attribute
  // ---------------------------------------------------------------------

  const DEVICE_EL: nat := 0
  const CHANNEL_EL: nat := 1
  const ATTRIBUTE_EL: nat := 2
  const MAX_EL: nat := 3

  /** The three names of an element_info: device, channel and attribute. */
  datatype ElementNames = ElementNames(device: Name, channel: Name, attribute: Name)

  /** el_info->name[level]. */
  function NameAt(e: ElementNames, level: nat): (r: Name)
    requires level < MAX_EL
    ensures level == DEVICE_EL ==> r == e.device
    ensures level == CHANNEL_EL ==> r == e.channel
    ensures level == ATTRIBUTE_EL ==> r == e.attribute
  {
    if level == DEVICE_EL then e.device
    else if level == CHANNEL_EL then e.channel
    else e.attribute
  }

  /**
   * What a read or write reaches: nothing (-ENOENT), read_all_attr or
   * write_all_attr over a map, or one exec callback; each with the channel
   * info built from the channel name.
   */
  datatype Action =
    | NoEntry
    | AllAttrs(table: Table, info: Iio.ChInfo)
    | Exec(handler: nat, info: Iio.ChInfo)

  /** The action and the crnt_level it is reached at. */
  datatype Outcome = Outcome(action: Action, level: nat)

  /** The global map a device-level access uses: map_out_global or map_in_global of the first entry. */
  function GlobalMap(table: seq<Entry>, out: bool): Table
  {
    if out then Head(table).mapOutGlobal else Head(table).mapInGlobal
  }

  /**
   * rd_wr_attribute from crnt_level level on map. A NULL map is -ENOENT.
   * At the device level with no channel, an empty attribute name reads or
   * writes all global attributes (map_in_global to read, map_out_global to
   * write), and a named one is looked up in the global map ch_out selects.
   * At the channel level an empty attribute name reads or writes the whole
   * map_in or map_out. Otherwise a found entry with exec is called; one
   * without descends one level, into map_out or map_in by is_write at the
   * channel level and by ch_out at the attribute level. Every callback needs
   * the device to be registered.
   */
  function Resolve(e: ElementNames, chOut: bool, level: nat, table: Table, isWrite: bool, devNames: seq<Name>): (o: Outcome)
    requires level < MAX_EL
    ensures level <= o.level <= MAX_EL
    ensures o.level == MAX_EL ==> o.action == NoEntry
    ensures table.None? ==> o == Outcome(NoEntry, level)
    ensures !o.action.NoEntry? ==> e.device in devNames
    ensures !o.action.NoEntry? ==> o.action.info == Iio.ChInfo(Iio.ChannelNumberOf(e.channel), chOut)
    ensures table.Some? && level == DEVICE_EL && e.channel == [] && e.attribute == [] && e.device in devNames ==>
              o == Outcome(AllAttrs(GlobalMap(table.value, isWrite), Iio.ChInfo(0, chOut)), level)
    ensures table.Some? && level == DEVICE_EL && e.channel == [] && e.attribute != [] ==>
              var m := GlobalMap(table.value, chOut);
              var id := AttributeId(e.attribute, m);
              && (id < 0 ==> o == Outcome(NoEntry, level))
              && (id >= 0 && m.value[id].exec.Some? ==>
                    o == Outcome(if e.device in devNames then Exec(m.value[id].exec.value, Iio.ChInfo(0, chOut)) else NoEntry, level))
    ensures table.Some? && level == CHANNEL_EL && e.attribute == [] ==>
              var all := if isWrite then Head(table.value).mapOut else Head(table.value).mapIn;
              o == Outcome(if e.device in devNames then AllAttrs(all, Iio.ChInfo(Iio.ChannelNumberOf(e.channel), chOut)) else NoEntry, level)
    ensures table.Some? && level == DEVICE_EL && e.channel == [] && e.attribute != [] ==>
              var m := GlobalMap(table.value, chOut);
              var id := AttributeId(e.attribute, m);
              id >= 0 && m.value[id].exec.None? ==>
                o == Resolve(e, chOut, CHANNEL_EL, if isWrite then m.value[id].mapOut else m.value[id].mapIn, isWrite, devNames)
    ensures table.Some? && !(level == DEVICE_EL && e.channel == []) && !(level == CHANNEL_EL && e.attribute == []) ==>
              var id := AttributeId(NameAt(e, level), table);
              && (id < 0 ==> o == Outcome(NoEntry, level))
              && (id >= 0 && table.value[id].exec.Some? ==>
                    o == Outcome(if e.device in devNames
                                 then Exec(table.value[id].exec.value, Iio.ChInfo(Iio.ChannelNumberOf(e.channel), chOut))
                                 else NoEntry, level))
              && (id >= 0 && table.value[id].exec.None? && level == DEVICE_EL ==>
                    var entry := table.value[id];
                    o == Resolve(e, chOut, CHANNEL_EL, if isWrite then entry.mapOut else entry.mapIn, isWrite, devNames))
              && (id >= 0 && table.value[id].exec.None? && level == CHANNEL_EL ==>
                    var entry := table.value[id];
                    o == Resolve(e, chOut, ATTRIBUTE_EL, if chOut then entry.mapOut else entry.mapIn, isWrite, devNames))
              && (id >= 0 && table.value[id].exec.None? && level == ATTRIBUTE_EL ==> o == Outcome(NoEntry, MAX_EL))
    decreases MAX_EL - level
  {
    if table.None? then Outcome(NoEntry, level)
    else
      var info := Iio.ChInfo(Iio.ChannelNumberOf(e.channel), chOut);
      var known := e.device in devNames;
      var global := level == DEVICE_EL && e.channel == [];
      if global && e.attribute == [] then
        Outcome(if known then AllAttrs(GlobalMap(table.value, isWrite), info) else NoEntry, level)
      else
        var m := if global then GlobalMap(table.value, chOut) else table;
        var id := if global then AttributeId(e.attribute, m) else AttributeId(NameAt(e, level), table);
        if level == CHANNEL_EL && e.attribute == [] then
          var all := if isWrite then Head(table.value).mapOut else Head(table.value).mapIn;
          Outcome(if known then AllAttrs(all, info) else NoEntry, level)
        else if id < 0 then Outcome(NoEntry, level)
        else
          var entry := m.value[id];
          if entry.exec.Some? then
            Outcome(if known then Exec(entry.exec.value, info) else NoEntry, level)
          else if level + 1 == CHANNEL_EL then
            Resolve(e, chOut, CHANNEL_EL, if isWrite then entry.mapOut else entry.mapIn, isWrite, devNames)
          else if level + 1 == ATTRIBUTE_EL then
            Resolve(e, chOut, ATTRIBUTE_EL, if chOut then entry.mapOut else entry.mapIn, isWrite, devNames)
          else Outcome(NoEntry, level + 1)
  }

  /** element_info: the three names, the direction, and the level rd_wr_attribute has reached. */
  class ElementInfo {
    const device: Name
    const channel: Name
    const attribute: Name
    const chOut: bool
    var level: nat

    /** The element_info read_attr and friends build: names as given, crnt_level DEVICE_EL. */
    constructor(device: Name, channel: Name, attribute: Name, chOut: bool)
      ensures Names() == ElementNames(device, channel, attribute) && this.chOut == chOut
      ensures level == DEVICE_EL
    {
      this.device := device;
      this.channel := channel;
      this.attribute := attribute;
      this.chOut := chOut;
      level := DEVICE_EL;
    }

    function Names(): ElementNames
    {
      ElementNames(device, channel, attribute)
    }
  }

  /**
   * rd_wr_attribute: the lookups by GetAttributeId, the device by
   * GetDevice and the channel number by the same scan as
   * iio_get_channel_number; crnt_level is bumped in place before each
   * descent.
   */
  method RdWrAttribute(el: ElementInfo, table: Table, isWrite: bool, devs: TinyDevices) returns (r: Action)
    requires el.level < MAX_EL && devs.Complete()
    modifies el
    ensures Outcome(r, el.level) == Resolve(el.Names(), el.chOut, old(el.level), table, isWrite, devs.Names())
    decreases MAX_EL - el.level
  {
    if table.None? {
      return NoEntry;
    }
    var e := el.Names();
    var id := GetAttributeId(NameAt(e, el.level), table);
    var m := table;
    if el.level == DEVICE_EL && el.channel == [] {
      if el.attribute == [] {
        var chNum := Iio.ChannelNumber(el.channel);
        var dev := devs.GetDevice(el.device);
        if dev == null {
          return NoEntry;
        }
        return AllAttrs(GlobalMap(table.value, isWrite), Iio.ChInfo(chNum, el.chOut));
      }
      m := GlobalMap(table.value, el.chOut);
      id := GetAttributeId(el.attribute, m);
    }
    if el.level == CHANNEL_EL && el.attribute == [] {
      var chNum := Iio.ChannelNumber(el.channel);
      var dev := devs.GetDevice(el.device);
      if dev == null {
        return NoEntry;
      }
      return AllAttrs(if isWrite then Head(table.value).mapOut else Head(table.value).mapIn, Iio.ChInfo(chNum, el.chOut));
    }
    if id >= 0 {
      var entry := m.value[id];
      if entry.exec.Some? {
        var chNum := Iio.ChannelNumber(el.channel);
        var dev := devs.GetDevice(el.device);
        if dev == null {
          return NoEntry;
        }
        return Exec(entry.exec.value, Iio.ChInfo(chNum, el.chOut));
      }
      el.level := el.level + 1;
      if el.level == CHANNEL_EL {
        r := RdWrAttribute(el, if isWrite then entry.mapOut else entry.mapIn, isWrite, devs);
        return;
      }
      if el.level == ATTRIBUTE_EL {
        r := RdWrAttribute(el, if el.chOut then entry.mapOut else entry.mapIn, isWrite, devs);
        return;
      }
    }
    return NoEntry;
  }

  // ---------------------------------------------------------------------
  // get_xml
  // ---------------------------------------------------------------------

  /** The fixed start of the context XML: declaration, DTD, context element and its kernel attribute. */
  const XML_HEADER: string :=
    "<?xml version=\"1.0\" encoding=\"utf-8\"?>"
    + "<!DOCTYPE context ["
    + "<!ELEMENT context (device | context-attribute)*>"
    + "<!ELEMENT context-attribute EMPTY>"
    + "<!ELEMENT device (channel | attribute | debug-attribute | buffer-attribute)*>"
    + "<!ELEMENT channel (scan-element?, attribute*)>"
    + "<!ELEMENT attribute EMPTY>"
    + "<!ELEMENT scan-element EMPTY>"
    + "<!ELEMENT debug-attribute EMPTY>"
    + "<!ELEMENT buffer-attribute EMPTY>"
    + "<!ATTLIST context name CDATA #REQUIRED description CDATA #IMPLIED>"
    + "<!ATTLIST context-attribute name CDATA #REQUIRED value CDATA #REQUIRED>"
    + "<!ATTLIST device id CDATA #REQUIRED name CDATA #IMPLIED>"
    + "<!ATTLIST channel id CDATA #REQUIRED type (input|output) #REQUIRED name CDATA #IMPLIED>"
    + "<!ATTLIST scan-element index CDATA #REQUIRED format CDATA #REQUIRED scale CDATA #IMPLIED>"
    + "<!ATTLIST attribute name CDATA #REQUIRED filename CDATA #IMPLIED>"
    + "<!ATTLIST debug-attribute name CDATA #REQUIRED>"
    + "<!ATTLIST buffer-attribute name CDATA #REQUIRED>"
    + "]>"
    + "<context name=\"xml\" description=\"Linux analog 4.9.0-g2398d50 #189 SMP PREEMPT Tue Jun 26 09:52:32 IST 2018 armv7l\" >"
    + "<context-attribute name=\"local,kernel\" value=\"4.9.0-g2398d50\" />"

  /** The closing tag get_xml appends. */
  const XML_FOOTER: string := "</context>"

  /** The device XML strings one after the other. */
  function Concat(xs: seq<string>): string
  {
    if xs == [] then [] else Concat(xs[..|xs| - 1]) + xs[|xs| - 1]
  }

  /** Concatenation distributes over joining the lists. */
  lemma {:induction false} ConcatAppend(a: seq<string>, b: seq<string>)
    ensures Concat(a + b) == Concat(a) + Concat(b)
    decreases |b|
  {
    if b == [] {
      assert a + b == a;
    } else {
      var b' := b[..|b| - 1];
      assert (a + b)[..|a + b| - 1] == a + b';
      ConcatAppend(a, b');
    }
  }

  /** The loop of get_xml: after prefix, each registered device's XML in registration order. */
  method AppendDeviceXml(devs: TinyDevices, prefix: string, xmls: seq<string>) returns (xml: string)
    requires devs.Valid() && |xmls| == devs.count
    ensures xml == prefix + Concat(xmls)
  {
    xml := prefix;
    var i := 0;
    while i < devs.count
      invariant 0 <= i <= devs.count
      invariant xml == prefix + Concat(xmls[..i])
    {
      assert xmls[..i + 1][..i] == xmls[..i];
      xml := xml + xmls[i];
      i := i + 1;
    }
    assert xmls[..i] == xmls;
  }

  /**
   * get_xml: the header, then for each registered device, in registration
   * order, the XML its get_device_xml callback produced (xmls[i] for
   * device i), then "</context>".
   */
  method GetXml(devs: TinyDevices, xmls: seq<string>) returns (xml: string)
    requires devs.Valid() && |xmls| == devs.count
    ensures xml == XML_HEADER + Concat(xmls) + XML_FOOTER
  {
    xml := AppendDeviceXml(devs, XML_HEADER, xmls);
    xml := xml + XML_FOOTER;
  }

  /** Text framed by a prefix and a suffix keeps them, and holds entry i after the prefix and the entries before it. */
  lemma {:induction false} Framed(prefix: string, xmls: seq<string>, suffix: string, i: nat)
    requires i < |xmls|
    ensures var xml, at := prefix + Concat(xmls) + suffix, |prefix| + |Concat(xmls[..i])|;
            && xml[..|prefix|] == prefix
            && xml[|xml| - |suffix|..] == suffix
            && at + |xmls[i]| <= |xml|
            && xml[at..at + |xmls[i]|] == xmls[i]
  {
    assert xmls == xmls[..i + 1] + xmls[i + 1..];
    ConcatAppend(xmls[..i + 1], xmls[i + 1..]);
    assert xmls[..i + 1][..i] == xmls[..i];
    var xml := prefix + Concat(xmls) + suffix;
    assert xml == prefix + Concat(xmls[..i]) + xmls[i] + Concat(xmls[i + 1..]) + suffix;
  }

  /**
   * The context XML starts with the header, ends with "</context>", and
   * holds device i's XML right after the header and the devices before it.
   */
  lemma DeviceXmlInContext(xmls: seq<string>, i: nat)
    requires i < |xmls|
    ensures var xml, at := XML_HEADER + Concat(xmls) + XML_FOOTER, |XML_HEADER| + |Concat(xmls[..i])|;
            && xml[..|XML_HEADER|] == XML_HEADER
            && xml[|xml| - |XML_FOOTER|..] == XML_FOOTER
            && at + |xmls[i]| <= |xml|
            && xml[at..at + |xmls[i]|] == xmls[i]
  {
    Framed(XML_HEADER, xmls, XML_FOOTER, i);
  }

  // ---------------------------------------------------------------------
  // open_dev, close_dev and get_mask
  // ---------------------------------------------------------------------

  /** The channels of cf-ad9361-lpc: four, mask 0x0F. */
  const INPUT_CHANNEL_MASK: bv32 := 0x0F

  /** supporter_dev: the three AD9361 device names. */
  predicate Supported(device: Name)
  {
    device == "ad9361-phy" || device == "cf-ad9361-lpc" || device == "cf-ad9361-dds-core-lpc"
  }

  /** The static request_mask of the AD9361 tinyiiod glue. */
  class Session {
    var requestMask: bv32

    /** request_mask starts at 0. */
    constructor()
      ensures requestMask == 0 && Valid()
    {
      requestMask := 0;
    }

    /** The recorded mask never names a channel beyond the four inputs. */
    predicate Valid()
      reads this
    {
      requestMask & !INPUT_CHANNEL_MASK == 0
    }

    /**
     * open_dev: -ENODEV for an unsupported device, -ENOENT for a mask with a
     * bit outside 0x0F; otherwise the mask is recorded as asked.
     */
    method OpenDev(device: Name, mask: bv32) returns (ret: int)
      requires Valid()
      modifies this
      ensures Valid()
      ensures ret == 0 || ret == -ENODEV || ret == -ENOENT
      ensures ret == -ENODEV <==> !Supported(device)
      ensures ret == -ENOENT <==> Supported(device) && mask & !INPUT_CHANNEL_MASK != 0
      ensures ret == 0 ==> requestMask == mask
      ensures ret != 0 ==> requestMask == old(requestMask)
    {
      if !Supported(device) {
        return -ENODEV;
      }
      if mask & !INPUT_CHANNEL_MASK != 0 {
        return -ENOENT;
      }
      requestMask := mask;
      ret := 0;
    }

    /** get_mask: -ENODEV for an unsupported device, otherwise always 0x0F, whatever was opened. */
    method GetMask(device: Name) returns (ret: int, mask: bv32)
      requires Valid()
      ensures ret == 0 <==> Supported(device)
      ensures ret != 0 ==> ret == -ENODEV
      ensures ret == 0 ==> mask == INPUT_CHANNEL_MASK && requestMask & !mask == 0
    {
      if !Supported(device) {
        return -ENODEV, 0;
      }
      return 0, INPUT_CHANNEL_MASK;
    }
  }
}
