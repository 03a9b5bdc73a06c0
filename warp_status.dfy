/** The `WarpStatus` dependency node of plug-ins/WarpStatus.py: a switch
    whose output follows the warp curve while the warp is active and the
    scene's own time otherwise. */
module WarpStatusNode {
  import opened Lists

  const TypeName: string := "WarpStatus"
  const TypeId: int := 0x00000123

  datatype NumericKind = Boolean | Float

  datatype Value = BoolValue(b: bool) | FloatValue(f: real)

  /** A numeric attribute as `MFnNumericAttribute` describes it. */
  datatype Attribute = Attribute(
    longName: string, shortName: string, kind: NumericKind, default: Value,
    readable: bool, writable: bool, storable: bool, keyable: bool)

  /** `MFnNumericAttribute.create`: a new attribute is readable, writable
      and storable, and not keyable, until told otherwise. */
  function Create(longName: string, shortName: string, kind: NumericKind, default: Value): (a: Attribute)
    ensures a.longName == longName && a.shortName == shortName && a.kind == kind && a.default == default
    ensures a.readable && a.writable && a.storable && !a.keyable
  {
    Attribute(longName, shortName, kind, default, true, true, true, false)
  }

  /** The value `compute` writes to `output`: the warp's value while the
      warp is active, the scene's time otherwise. */
  function Selected(active: bool, warp: real, time: real): real
  {
    if active then warp else time
  }

  /** `Selected` never invents a value, and each input is passed through
      unchanged in its own case. */
  lemma SelectedIsOneInput(active: bool, warp: real, time: real)
    ensures Selected(active, warp, time) == warp || Selected(active, warp, time) == time
    ensures Selected(active, warp, time) == warp <== active
    ensures Selected(active, warp, time) == time <== !active
    ensures warp == time ==> Selected(active, warp, time) == warp
  {
  }

  /** The values a `compute` call sees and writes: the three inputs, the
      output handle and the set of plugs marked clean. */
  class DataBlock {
    var warpActive: bool
    var warpInput: real
    var timeInput: real
    var output: real
    var clean: set<string>

    constructor(warpActive: bool, warpInput: real, timeInput: real)
      ensures this.warpActive == warpActive && this.warpInput == warpInput && this.timeInput == timeInput
      ensures output == 0.0 && clean == {}
    {
      this.warpActive, this.warpInput, this.timeInput := warpActive, warpInput, timeInput;
      output, clean := 0.0, {};
    }
  }

  /** One `WarpStatus` node. Plugs are named by their attribute's long name. */
  class WarpStatus {
    const nodeName: string

    /** The node is called by the given name, or by its type name when the
        name is missing or empty. */
    constructor(name: Option<string>)
      ensures name.Some? && name.value != "" ==> nodeName == name.value
      ensures name.None? || name.value == "" ==> nodeName == TypeName
    {
      nodeName := if name.Some? && name.value != "" then name.value else TypeName;
    }

    /** `compute`: asked for `output`, it writes the selected input to the
        output handle and marks the plug clean; asked for any other plug it
        does nothing. The inputs are only read. */
    method Compute(plug: string, block: DataBlock)
      modifies block
      ensures block.warpActive == old(block.warpActive)
      ensures block.warpInput == old(block.warpInput) && block.timeInput == old(block.timeInput)
      ensures plug == "output" ==>
        && block.output == Selected(old(block.warpActive), old(block.warpInput), old(block.timeInput))
        && block.clean == old(block.clean) + {plug}
      ensures plug != "output" ==> block.output == old(block.output) && block.clean == old(block.clean)
    {
      if plug == "output" {
        var active := block.warpActive;
        var warp := block.warpInput;
        var time := block.timeInput;
        var output;
        if active {
          output := warp;
        } else {
          output := time;
        }
        block.output := output;
        block.clean := block.clean + {plug};
      }
    }
  }

  /** The type-level declarations `initialize` makes: the attributes, in
      the order they are added, and the `attributeAffects` pairs. */
  class NodeClass {
    var attributes: seq<Attribute>
    var affects: seq<(string, string)>

    constructor()
      ensures attributes == [] && affects == []
    {
      attributes, affects := [], [];
    }

    /** `initialize`: four attributes, each created and then adjusted
        through the same function set, and three dependencies on `output`. */
    method Initialize()
      modifies this
      ensures attributes == old(attributes) + Declared()
      ensures affects == old(affects) + DeclaredAffects()
    {
      var attr := Create("warpActive", "act", Boolean, BoolValue(true));
      attr := attr.(writable := true);
      attr := attr.(storable := true);
      attr := attr.(keyable := true);
      attributes := attributes + [attr];

      attr := Create("warpInput", "wi", Float, FloatValue(0.0));
      attr := attr.(writable := true);
      attr := attr.(storable := true);
      attr := attr.(keyable := true);
      attributes := attributes + [attr];

      attr := Create("timeInput", "ti", Float, FloatValue(0.0));
      attr := attr.(writable := true);
      attr := attr.(storable := true);
      attr := attr.(keyable := true);
      attributes := attributes + [attr];

      attr := Create("output", "out", Float, FloatValue(0.0));
      attr := attr.(writable := false);
      attr := attr.(storable := false);
      attr := attr.(readable := true);
      attributes := attributes + [attr];

      affects := affects + [("warpActive", "output")];
      affects := affects + [("warpInput", "output")];
      affects := affects + [("timeInput", "output")];
    }
  }

  /** The attributes `initialize` declares, in order. */
  function Declared(): seq<Attribute>
  {
    [ Attribute("warpActive", "act", Boolean, BoolValue(true), true, true, true, true),
      Attribute("warpInput", "wi", Float, FloatValue(0.0), true, true, true, true),
      Attribute("timeInput", "ti", Float, FloatValue(0.0), true, true, true, true),
      Attribute("output", "out", Float, FloatValue(0.0), true, false, false, false) ]
  }

  function DeclaredAffects(): seq<(string, string)>
  {
    [("warpActive", "output"), ("warpInput", "output"), ("timeInput", "output")]
  }

  predicate IsInput(name: string)
  {
    name == "warpActive" || name == "warpInput" || name == "timeInput"
  }

  /** The declared attribute called `name`, if any. */
  function Lookup(attrs: seq<Attribute>, name: string): (r: Option<Attribute>)
    ensures r.Some? ==> r.value in attrs && r.value.longName == name
    ensures r.None? ==> forall a :: a in attrs ==> a.longName != name
  {
    if attrs == [] then None
    else if attrs[0].longName == name then Some(attrs[0])
    else Lookup(attrs[1..], name)
  }

  /** Defaults: the warp is active, and every float starts at zero. */
  lemma DeclaredDefaults()
    ensures Lookup(Declared(), "warpActive") == Some(Declared()[0]) && Declared()[0].default == BoolValue(true)
    ensures forall a :: a in Declared() && a.kind == Float ==> a.default == FloatValue(0.0)
    ensures forall a :: a in Declared() ==> (a.kind == Boolean <==> a.longName == "warpActive")
  {
  }

  /** Flags: the inputs are writable, storable and keyable; the output is
      readable but neither writable, storable nor keyable. Long and short
      names are all distinct. */
  lemma DeclaredFlags()
    ensures forall a :: a in Declared() && IsInput(a.longName) ==> a.readable && a.writable && a.storable && a.keyable
    ensures forall a :: a in Declared() && a.longName == "output" ==>
      a.readable && !a.writable && !a.storable && !a.keyable
    ensures forall a :: a in Declared() ==> IsInput(a.longName) || a.longName == "output"
    ensures forall i, j :: 0 <= i < j < |Declared()| ==>
      Declared()[i].longName != Declared()[j].longName && Declared()[i].shortName != Declared()[j].shortName
  {
  }

  /** Every input, and nothing else, is declared to affect the output, and
      the output affects nothing. */
  lemma DeclaredAffectsOutput()
    ensures forall name :: IsInput(name) <==> (name, "output") in DeclaredAffects()
    ensures forall p :: p in DeclaredAffects() ==> p.1 == "output" && IsInput(p.0)
  {
  }

  /** The short name `wi` that `get_warp_curve` queries is the short name of
      `warpInput`. */
  lemma WarpInputShortName()
    ensures Lookup(Declared(), "warpInput").Some? && Lookup(Declared(), "warpInput").value.shortName == "wi"
  {
  }
}
