// The command table of backend/wavr/client_commands.py, row by row, and that
// every row has the shape request_for relies on.
module CommandTable {
  import opened Prelude
  import opened StringOrder
  import opened ClientCommands

  function InPath(key: string): (string, ArgSpec) { (key, ArgSpec(TString, true, true)) }
  function Needed(key: string, ty: ArgType): (string, ArgSpec) { (key, ArgSpec(ty, true, false)) }
  function Optional(key: string, ty: ArgType): (string, ArgSpec) { (key, ArgSpec(ty, false, false)) }

  function PairCommand(name: string): (s: Option<Spec>) {
    match name
    case "pair.request" =>
      Some(Spec(POST, [Lit("api"), Lit("pair-request")], false,
                [Optional("device_key", TString), Optional("platform", TString), Optional("reported_fp", TString),
                 Needed("requester_name", TString)]))
    case "pair.status" =>
      Some(Spec(POST, [Lit("api"), Lit("pair-request"), Lit("status")], false, [Needed("request_id", TString)]))
    case _ => None
  }

  function RedeemCommand(name: string): (s: Option<Spec>) {
    match name
    case "pair.redeem" =>
      Some(Spec(POST, [Lit("api"), Lit("pair")], false,
                [Needed("code", TString), Optional("device_key", TString), Needed("device_name", TString)]))
    case _ => None
  }

  function MintCommand(name: string): (s: Option<Spec>) {
    match name
    case "pair.code" =>
      Some(Spec(POST, [Lit("api"), Lit("pair-code")], true,
                [Optional("person_id", TString), Optional("role", TString)]))
    case _ => None
  }

  function PairingCommand(name: string): (s: Option<Spec>) {
    match name
    case "pairings.list" => Some(Spec(GET, [Lit("api"), Lit("pending-pairings")], true, []))
    case "pairings.approve" =>
      Some(Spec(POST, [Lit("api"), Lit("pending-pairings"), Hole("id"), Lit("approve")], true,
                [Needed("confirm_code", TString), InPath("id"), Optional("role", TString)]))
    case "pairings.deny" =>
      Some(Spec(POST, [Lit("api"), Lit("pending-pairings"), Hole("id"), Lit("deny")], true, [InPath("id")]))
    case _ => None
  }

  function DeviceCommand(name: string): (s: Option<Spec>) {
    match name
    case "devices.list" => Some(Spec(GET, [Lit("api"), Lit("devices")], true, []))
    case "device.revoke" => Some(Spec(DELETE, [Lit("api"), Lit("devices"), Hole("id")], true, [InPath("id")]))
    case "device.role" =>
      Some(Spec(POST, [Lit("api"), Lit("devices"), Hole("id"), Lit("role")], true,
                [InPath("id"), Needed("role", TString)]))
    case _ => None
  }

  function SensingCommand(name: string): (s: Option<Spec>) {
    match name
    case "watch.get" => Some(Spec(GET, [Lit("api"), Lit("watch")], true, []))
    case "watch.set" => Some(Spec(POST, [Lit("api"), Lit("watch")], true, [Needed("on", TBool)]))
    case "sensing.set" => Some(Spec(POST, [Lit("api"), Lit("system"), Lit("toggle")], true, [Needed("on", TBool)]))
    case "sources.list" => Some(Spec(GET, [Lit("api"), Lit("system")], true, []))
    case "source.set" =>
      Some(Spec(POST, [Lit("api"), Lit("sources"), Hole("name"), Lit("toggle")], true,
                [Needed("enabled", TBool), InPath("name")]))
    case "source.restart" =>
      Some(Spec(POST, [Lit("api"), Lit("sources"), Hole("name"), Lit("restart")], true, [InPath("name")]))
    case _ => None
  }

  function NodeListCommand(name: string): (s: Option<Spec>) {
    match name
    case "nodes.list" => Some(Spec(GET, [Lit("api"), Lit("nodes")], true, []))
    case "nodes.pending" => Some(Spec(GET, [Lit("api"), Lit("nodes"), Lit("pending")], true, []))
    case _ => None
  }

  function NodeApprovalCommand(name: string): (s: Option<Spec>) {
    match name
    case "node.approve" =>
      Some(Spec(POST, [Lit("api"), Lit("nodes"), Hole("id"), Lit("approve")], true,
                [InPath("id"), Needed("name", TString), Needed("room", TString), Needed("sensor_type", TString),
                 Optional("transport", TString)]))
    case "node.enroll_code" =>
      Some(Spec(POST, [Lit("api"), Lit("nodes"), Lit("enroll-code")], true,
                [Needed("name", TString), Needed("room", TString), Needed("sensor_type", TString),
                 Optional("transport", TString)]))
    case _ => None
  }

  function NodeCommand(name: string): (s: Option<Spec>) {
    match name
    case "node.deny" => Some(Spec(POST, [Lit("api"), Lit("nodes"), Hole("id"), Lit("deny")], true, [InPath("id")]))
    case "node.disable" =>
      Some(Spec(POST, [Lit("api"), Lit("nodes"), Hole("id"), Lit("disable")], true, [InPath("id")]))
    case "node.revoke" => Some(Spec(DELETE, [Lit("api"), Lit("nodes"), Hole("id")], true, [InPath("id")]))
    case _ => None
  }

  function SpaceCommand(name: string): (s: Option<Spec>) {
    match name
    case "space.get" => Some(Spec(GET, [Lit("api"), Lit("space")], true, []))
    case "space.rename" =>
      Some(Spec(PUT, [Lit("api"), Lit("space")], true, [Optional("kind", TString), Needed("name", TString)]))
    case "settings.list" => Some(Spec(GET, [Lit("api"), Lit("settings")], true, []))
    case "setting.set" =>
      Some(Spec(PUT, [Lit("api"), Lit("settings"), Hole("key")], true,
                [Optional("consent", TString), InPath("key"), Needed("value", TAny)]))
    case "setting.reset" => Some(Spec(DELETE, [Lit("api"), Lit("settings"), Hole("key")], true, [InPath("key")]))
    case _ => None
  }

  function SetupCommand(name: string): (s: Option<Spec>) {
    match name
    case "setup.status" => Some(Spec(GET, [Lit("api"), Lit("setup"), Lit("status")], true, []))
    case "setup.create_space" =>
      Some(Spec(POST, [Lit("api"), Lit("setup"), Lit("create-space")], true,
                [Optional("functions", TStrings), Optional("kind", TString), Needed("name", TString),
                 Optional("owner_name", TString), Optional("room", TString)]))
    case "scene.get" => Some(Spec(GET, [Lit("api"), Lit("scene")], true, []))
    case _ => None
  }

  function FindingCommand(name: string): (s: Option<Spec>) {
    match name
    case "discoveries.list" => Some(Spec(GET, [Lit("api"), Lit("discoveries")], true, []))
    case "discovery.accept" =>
      Some(Spec(POST, [Lit("api"), Lit("discoveries"), Hole("id"), Lit("accept")], true, [InPath("id")]))
    case "discovery.dismiss" =>
      Some(Spec(POST, [Lit("api"), Lit("discoveries"), Hole("id"), Lit("dismiss")], true, [InPath("id")]))
    case "doctor.run" => Some(Spec(GET, [Lit("api"), Lit("health"), Lit("doctor")], true, []))
    case _ => None
  }

  function Command(name: string): (s: Option<Spec>) {
    if PairCommand(name).Some? then PairCommand(name)
    else if RedeemCommand(name).Some? then RedeemCommand(name)
    else if MintCommand(name).Some? then MintCommand(name)
    else if PairingCommand(name).Some? then PairingCommand(name)
    else if DeviceCommand(name).Some? then DeviceCommand(name)
    else if SensingCommand(name).Some? then SensingCommand(name)
    else if NodeListCommand(name).Some? then NodeListCommand(name)
    else if NodeApprovalCommand(name).Some? then NodeApprovalCommand(name)
    else if NodeCommand(name).Some? then NodeCommand(name)
    else if SpaceCommand(name).Some? then SpaceCommand(name)
    else if SetupCommand(name).Some? then SetupCommand(name)
    else FindingCommand(name)
  }

  // -- The shape of a row, checked entry by entry ------------------------------------

  predicate KeysRise(args: seq<(string, ArgSpec)>) {
    |args| >= 2 ==> Less(args[0].0, args[1].0) && KeysRise(args[1..])
  }

  // The words the table's paths are made of.
  predicate WordA(t: string) {
    t == "api" || t == "pair-request" || t == "status" || t == "pair" || t == "pending-pairings" ||
    t == "approve" || t == "deny" || t == "pair-code"
  }

  predicate WordB(t: string) {
    t == "devices" || t == "role" || t == "watch" || t == "system" || t == "toggle" || t == "sources" ||
    t == "restart" || t == "nodes"
  }

  predicate WordC(t: string) {
    t == "pending" || t == "disable" || t == "enroll-code" || t == "space" || t == "settings" ||
    t == "setup" || t == "create-space" || t == "scene"
  }

  predicate WordD(t: string) {
    t == "discoveries" || t == "accept" || t == "dismiss" || t == "health" || t == "doctor"
  }

  predicate Word(t: string) {
    WordA(t) || WordB(t) || WordC(t) || WordD(t)
  }

  lemma WordAIsFixed(t: string)
    requires WordA(t)
    ensures FixedText(t)
  {
  }

  lemma WordBIsFixed(t: string)
    requires WordB(t)
    ensures FixedText(t)
  {
  }

  lemma WordCIsFixed(t: string)
    requires WordC(t)
    ensures FixedText(t)
  {
  }

  lemma WordDIsFixed(t: string)
    requires WordD(t)
    ensures FixedText(t)
  {
  }

  predicate PathFits(path: seq<Segment>, args: seq<(string, ArgSpec)>) {
    |path| > 0 ==>
      && (if path[0].Lit? then Word(path[0].text) else InPath(path[0].name) in args)
      && PathFits(path[1..], args)
  }

  predicate ArgsFit(args: seq<(string, ArgSpec)>, path: seq<Segment>, verb: Method) {
    |args| > 0 ==>
      && (args[0].1.inPath ==> args[0] == InPath(args[0].0) && Hole(args[0].0) in path)
      && (verb == GET ==> args[0].1.inPath)
      && ArgsFit(args[1..], path, verb)
  }

  predicate Fits(s: Spec) {
    KeysRise(s.args) && PathFits(s.path, s.args) && ArgsFit(s.args, s.path, s.verb)
  }

  lemma {:induction false} KeysRiseAll(args: seq<(string, ArgSpec)>, i: nat, j: nat)
    requires KeysRise(args) && i < j < |args|
    ensures Less(args[i].0, args[j].0)
  {
    if i > 0 {
      KeysRiseAll(args[1..], i - 1, j - 1);
    } else if j > 1 {
      KeysRiseAll(args[1..], 0, j - 1);
      LessTrans(args[0].0, args[1].0, args[j].0);
    }
  }

  lemma {:induction false} PathFitsAt(path: seq<Segment>, args: seq<(string, ArgSpec)>, i: nat)
    requires PathFits(path, args) && i < |path|
    ensures if path[i].Lit? then FixedText(path[i].text) else InPath(path[i].name) in args
  {
    if i > 0 {
      PathFitsAt(path[1..], args, i - 1);
    } else if path[0].Lit? {
      var t := path[0].text;
      if WordA(t) { WordAIsFixed(t); }
      if WordB(t) { WordBIsFixed(t); }
      if WordC(t) { WordCIsFixed(t); }
      if WordD(t) { WordDIsFixed(t); }
    }
  }

  lemma {:induction false} ArgsFitAt(args: seq<(string, ArgSpec)>, path: seq<Segment>, verb: Method, i: nat)
    requires ArgsFit(args, path, verb) && i < |args|
    ensures args[i].1.inPath ==> args[i] == InPath(args[i].0) && Hole(args[i].0) in path
    ensures verb == GET ==> args[i].1.inPath
  {
    if i > 0 { ArgsFitAt(args[1..], path, verb, i - 1); }
  }

  lemma FitsIsWellFormed(s: Spec)
    requires Fits(s)
    ensures WellFormed(s)
  {
    forall i, j | 0 <= i < j < |s.args| ensures Less(s.args[i].0, s.args[j].0) { KeysRiseAll(s.args, i, j); }
    forall i | 0 <= i < |s.path|
      ensures if s.path[i].Lit? then FixedText(s.path[i].text) else IsPathArg(s, s.path[i].name)
    {
      PathFitsAt(s.path, s.args, i);
    }
    forall i | 0 <= i < |s.args|
      ensures s.args[i].1.inPath ==> s.args[i].1 == ArgSpec(TString, true, true) && Hole(s.args[i].0) in s.path
      ensures s.verb == GET ==> s.args[i].1.inPath
    {
      ArgsFitAt(s.args, s.path, s.verb, i);
    }
  }

  lemma PairRequestFits()
    ensures Fits(PairCommand("pair.request").value)
  {
  }

  lemma PairRowsFit(name: string)
    ensures PairCommand(name).Some? ==> Fits(PairCommand(name).value)
  {
    match name
    case "pair.request" => PairRequestFits();
    case _ =>
  }

  lemma MintRowsFit(name: string)
    ensures MintCommand(name).Some? ==> Fits(MintCommand(name).value)
  {
  }

  lemma DeviceKeysRise()
    ensures Less("device_key", "device_name")
  {
    LessPrefix("device_", "key", "name");
    assert "device_" + "key" == "device_key" && "device_" + "name" == "device_name";
  }

  lemma RedeemFits()
    ensures Fits(RedeemCommand("pair.redeem").value)
  {
    DeviceKeysRise();
  }

  lemma RedeemRowsFit(name: string)
    ensures RedeemCommand(name).Some? ==> Fits(RedeemCommand(name).value)
  {
    RedeemFits();
  }

  lemma PairingApproveFits()
    ensures Fits(PairingCommand("pairings.approve").value)
  {
  }

  lemma PairingRowsFit(name: string)
    ensures PairingCommand(name).Some? ==> Fits(PairingCommand(name).value)
  {
    match name
    case "pairings.approve" => PairingApproveFits();
    case _ =>
  }

  lemma DeviceRoleFits()
    ensures Fits(DeviceCommand("device.role").value)
  {
  }

  lemma DeviceRowsFit(name: string)
    ensures DeviceCommand(name).Some? ==> Fits(DeviceCommand(name).value)
  {
    match name
    case "device.role" => DeviceRoleFits();
    case _ =>
  }

  lemma SourceSetFits()
    ensures Fits(SensingCommand("source.set").value)
  {
  }

  lemma SourceRestartFits()
    ensures Fits(SensingCommand("source.restart").value)
  {
  }

  lemma SensingRowsFit(name: string)
    ensures SensingCommand(name).Some? ==> Fits(SensingCommand(name).value)
  {
    match name
    case "source.set" => SourceSetFits();
    case "source.restart" => SourceRestartFits();
    case _ =>
  }

  lemma NodeListRowsFit(name: string)
    ensures NodeListCommand(name).Some? ==> Fits(NodeListCommand(name).value)
  {
  }

  lemma NodeApproveFits()
    ensures Fits(NodeApprovalCommand("node.approve").value)
  {
  }

  lemma EnrollCodeFits()
    ensures Fits(NodeApprovalCommand("node.enroll_code").value)
  {
  }

  lemma NodeApprovalRowsFit(name: string)
    ensures NodeApprovalCommand(name).Some? ==> Fits(NodeApprovalCommand(name).value)
  {
    match name
    case "node.approve" => NodeApproveFits();
    case "node.enroll_code" => EnrollCodeFits();
    case _ =>
  }

  lemma NodeRowsFit(name: string)
    ensures NodeCommand(name).Some? ==> Fits(NodeCommand(name).value)
  {
  }

  lemma SpaceRenameFits()
    ensures Fits(SpaceCommand("space.rename").value)
  {
  }

  lemma SettingSetFits()
    ensures Fits(SpaceCommand("setting.set").value)
  {
  }

  lemma SettingResetFits()
    ensures Fits(SpaceCommand("setting.reset").value)
  {
  }

  lemma SpaceRowsFit(name: string)
    ensures SpaceCommand(name).Some? ==> Fits(SpaceCommand(name).value)
  {
    match name
    case "space.rename" => SpaceRenameFits();
    case "setting.set" => SettingSetFits();
    case "setting.reset" => SettingResetFits();
    case _ =>
  }

  lemma CreateSpaceFits()
    ensures Fits(SetupCommand("setup.create_space").value)
  {
  }

  lemma SetupRowsFit(name: string)
    ensures SetupCommand(name).Some? ==> Fits(SetupCommand(name).value)
  {
    match name
    case "setup.create_space" => CreateSpaceFits();
    case _ =>
  }

  lemma DiscoveryAcceptFits()
    ensures Fits(FindingCommand("discovery.accept").value)
  {
  }

  lemma DiscoveryDismissFits()
    ensures Fits(FindingCommand("discovery.dismiss").value)
  {
  }

  lemma FindingRowsFit(name: string)
    ensures FindingCommand(name).Some? ==> Fits(FindingCommand(name).value)
  {
    match name
    case "discovery.accept" => DiscoveryAcceptFits();
    case "discovery.dismiss" => DiscoveryDismissFits();
    case _ =>
  }

  // Every row of the table is well formed, so what request_for promises of such
  // rows holds of every command there is.
  lemma TableIsWellFormed(name: string)
    ensures Command(name).Some? ==> WellFormed(Command(name).value)
  {
    PairRowsFit(name);
    RedeemRowsFit(name);
    MintRowsFit(name);
    PairingRowsFit(name);
    DeviceRowsFit(name);
    SensingRowsFit(name);
    NodeListRowsFit(name);
    NodeApprovalRowsFit(name);
    NodeRowsFit(name);
    SpaceRowsFit(name);
    SetupRowsFit(name);
    FindingRowsFit(name);
    if Command(name).Some? { FitsIsWellFormed(Command(name).value); }
  }

  // request_for: the request a command is, or the first thing wrong with the call.
  method RequestFor(name: Option<string>, args: Option<Args>) returns (res: Result<Request, Fault>)
    ensures name.None? || Command(name.value).None? ==> res == Err(UnknownCommand)
    ensures name.Some? && Command(name.value).Some? && args.None? ==> res == Err(NotObject)
    ensures name.Some? && Command(name.value).Some? && args.Some? ==>
              Answers(Command(name.value).value, args.value, res)
  {
    if name.None? || Command(name.value).None? { return Err(UnknownCommand); }
    if args.None? { return Err(NotObject); }
    TableIsWellFormed(name.value);
    res := BuildRequest(Command(name.value).value, args.value);
  }
}
