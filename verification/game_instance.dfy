/** What the game instance of the app computes before it draws: which
    layer of a cell is shown, how far a meter bar is filled, how the
    newest messages are grouped, and the names of organs and items. The
    drawing itself is not part of this model. */
module GameInstance {
  import opened Wrappers
  import opened Ints
  import opened Data
  import GameState

  /** What the player sees of one layer of a cell; the colour hint and the
      health meter play no part in choosing the layer shown. */
  datatype VisibleEntity = VisibleEntity(tile: Option<Tile>)

  /** A `LayerTable<VisibleEntity>`: one visible entity per layer. */
  datatype LayerTable = LayerTable(floor: VisibleEntity, feature: VisibleEntity, item: VisibleEntity, character: VisibleEntity)

  function At(layers: LayerTable, layer: Layer): VisibleEntity
  {
    match layer
    case Floor => layers.floor
    case Feature => layers.feature
    case Item => layers.item
    case Character => layers.character
  }

  /** `layer_to_depth`: the drawing depth of each layer. */
  function LayerToDepth(layer: Layer): (d: int)
    ensures 0 <= d <= 3
    ensures d == 3 <==> layer == Character
    ensures d == 0 <==> layer == Layer.Floor
  {
    match layer
    case Character => 3
    case Item => 2
    case Feature => 1
    case Floor => 0
  }

  /** The layers from the top of a cell down. */
  const LAYERS_TOP_DOWN: seq<Layer> := [Character, Item, Feature, Layer.Floor]

  /** Depth falls strictly along the top-down order, so distinct layers
      have distinct depths. */
  lemma DepthOrder(i: int, j: int, a: Layer, b: Layer)
    requires 0 <= i < j < 4
    ensures LayerToDepth(LAYERS_TOP_DOWN[i]) > LayerToDepth(LAYERS_TOP_DOWN[j])
    ensures LayerToDepth(a) == LayerToDepth(b) ==> a == b
  {
  }

  /** `visible_entity_on_top`: the first layer, from the top down, whose
      entity has a tile. The result is the entity of the layer it names, and
      every deeper-drawn layer is empty; nothing is returned only when no
      layer has a tile. */
  function VisibleEntityOnTop(layers: LayerTable): (r: Option<(VisibleEntity, Layer)>)
    ensures r.Some? ==> r.value.0 == At(layers, r.value.1) && r.value.0.tile.Some?
    ensures r.Some? ==> forall l :: LayerToDepth(l) > LayerToDepth(r.value.1) ==> At(layers, l).tile.None?
    ensures r.None? <==> forall l :: At(layers, l).tile.None?
  {
    if layers.character.tile.Some? then Some((layers.character, Character))
    else if layers.item.tile.Some? then Some((layers.item, Item))
    else if layers.feature.tile.Some? then Some((layers.feature, Feature))
    else if layers.floor.tile.Some? then Some((layers.floor, Layer.Floor))
    else None
  }

  /** `visible_entity_on_top_excluding_character`: the same choice made
      among the item, feature and floor layers only. */
  function VisibleEntityOnTopExcludingCharacter(layers: LayerTable): (r: Option<(VisibleEntity, Layer)>)
    ensures r.Some? ==> r.value.1 != Character
    ensures r.Some? ==> r.value.0 == At(layers, r.value.1) && r.value.0.tile.Some?
    ensures r.Some? ==> forall l :: l != Character && LayerToDepth(l) > LayerToDepth(r.value.1) ==> At(layers, l).tile.None?
    ensures r.None? <==> forall l :: l != Character ==> At(layers, l).tile.None?
  {
    if layers.item.tile.Some? then Some((layers.item, Item))
    else if layers.feature.tile.Some? then Some((layers.feature, Feature))
    else if layers.floor.tile.Some? then Some((layers.floor, Layer.Floor))
    else None
  }

  /** The variant excluding the character is the plain choice on a cell
      whose character layer is emptied, and the two agree on a cell with no
      character tile. */
  lemma ExcludingCharacterIsOnTopWithoutCharacter(layers: LayerTable)
    ensures VisibleEntityOnTopExcludingCharacter(layers) == VisibleEntityOnTop(layers.(character := VisibleEntity(None)))
    ensures layers.character.tile.None? ==> VisibleEntityOnTopExcludingCharacter(layers) == VisibleEntityOnTop(layers)
  {
  }

  /** The width of a meter bar in cells. */
  const METER_WIDTH: nat := 15

  /** The number of filled cells of a meter bar in `render_meter`:
      `current * 15 / max(max, 1)`, raised to 1 when that rounds to 0 for a
      non-empty meter. The product is a `u32`, so the caller must keep it in
      range. A bar is empty exactly when the meter is, and is never wider
      than the bar when the meter is within its maximum; a full meter fills
      the bar. */
  function MeterFill(current: u32, max: u32): (filled: nat)
    requires current as int * METER_WIDTH <= U32_MAX
    ensures filled == 0 <==> current == 0
    ensures current <= max ==> filled <= METER_WIDTH
    ensures 0 < current == max ==> filled == METER_WIDTH
  {
    var m := if max < 1 then 1 else max as int;
    var f := (current as int * METER_WIDTH) / m;
    FillBounds(current as int, m);
    if f == 0 && current > 0 then 1 else f
  }

  lemma {:induction false} FillBounds(c: nat, m: int)
    requires 0 < m
    ensures c == 0 ==> c * METER_WIDTH / m == 0
    ensures c <= m ==> c * METER_WIDTH / m <= METER_WIDTH
    ensures c == m ==> c * METER_WIDTH / m == METER_WIDTH
  {
    if c <= m {
      DivMonotone(c * METER_WIDTH, m * METER_WIDTH, m);
      FullWidth(m);
    }
  }

  lemma FullWidth(m: int)
    requires 0 < m
    ensures m * METER_WIDTH / m == METER_WIDTH
  {
  }

  /** More in the meter never fills fewer cells. */
  lemma {:induction false} MeterFillMonotone(c1: u32, c2: u32, max: u32)
    requires c1 <= c2 && c2 as int * METER_WIDTH <= U32_MAX
    ensures MeterFill(c1, max) <= MeterFill(c2, max)
  {
    var m := if max < 1 then 1 else max as int;
    DivMonotone(c1 as int * METER_WIDTH, c2 as int * METER_WIDTH, m);
  }

  lemma {:induction false} DivMonotone(a: nat, b: nat, m: int)
    requires a <= b && 0 < m
    ensures a / m <= b / m
  {
    if a / m > b / m {
      calc {
        b;
      < (b / m + 1) * m;
      <= (a / m) * m;
      <= a;
      }
    }
  }

  /** The alpha of each cell of a meter bar, left to right, as the loop of
      `render_meter` sets it: opaque for the filled cells, faint for the
      rest. */
  method MeterAlphas(current: u32, max: u32) returns (alphas: seq<u8>)
    requires current as int * METER_WIDTH <= U32_MAX
    ensures |alphas| == METER_WIDTH
    ensures forall i :: 0 <= i < METER_WIDTH ==> alphas[i] == (if i < MeterFill(current, max) then 255 else 63)
  {
    var filled := MeterFill(current, max);
    alphas := [];
    for i := 0 to METER_WIDTH
      invariant |alphas| == i
      invariant forall k :: 0 <= k < i ==> alphas[k] == (if k < filled then 255 else 63)
    {
      var alpha: u8 := if i < filled then 255 else 63;
      alphas := alphas + [alpha];
    }
  }

  /** A meter bar shows at least one opaque cell exactly when the meter is
      not empty, and a full meter shows nothing faint. */
  lemma MeterBarShowsContent(current: u32, max: u32, alphas: seq<u8>)
    requires current as int * METER_WIDTH <= U32_MAX
    requires |alphas| == METER_WIDTH
    requires forall i :: 0 <= i < METER_WIDTH ==> alphas[i] == (if i < MeterFill(current, max) then 255 else 63)
    ensures alphas[0] == 255 <==> current > 0
    ensures 0 < current == max ==> forall i :: 0 <= i < METER_WIDTH ==> alphas[i] == 255
  {
  }

  // ----- message grouping -----

  /** A group of equal consecutive messages: how many, and which. */
  datatype Group = Group(count: nat, message: GameState.Message)

  /** The number of message groups shown. */
  const MAX_GROUPS: nat := 4

  /** Every group counts at least one message, and neighbouring groups
      hold different messages. */
  ghost predicate Grouped(g: seq<Group>)
  {
    && (forall i :: 0 <= i < |g| ==> g[i].count >= 1)
    && (forall i :: 0 < i < |g| ==> g[i - 1].message != g[i].message)
  }

  /** `p` is a grouping of a prefix of what `r` groups: all of `p` but its
      last group is in `r`, and `r` has a group of the same message where
      `p`'s last group is. */
  ghost predicate PrefixGrouping(p: seq<Group>, r: seq<Group>)
  {
    && 0 < |p| <= |r|
    && (forall i :: 0 <= i < |p| - 1 ==> p[i] == r[i])
    && p[|p| - 1].message == r[|p| - 1].message
  }

  /** One more message appended to a grouping: merged into the last group
      when that holds the same message, otherwise the start of a new group
      of one. */
  function Push(g: seq<Group>, m: GameState.Message): (r: seq<Group>)
    ensures |g| <= |r| <= |g| + 1 && r != [] && r[|r| - 1].message == m
    ensures |r| == |g| <==> g != [] && g[|g| - 1].message == m
    ensures |r| == |g| + 1 ==> r[..|g|] == g && r[|g|].count == 1
    ensures |r| == |g| ==> r[..|g| - 1] == g[..|g| - 1] && r[|g| - 1].count == g[|g| - 1].count + 1
  {
    if g != [] && g[|g| - 1].message == m then g[..|g| - 1] + [Group(g[|g| - 1].count + 1, m)]
    else g + [Group(1, m)]
  }

  /** Appending a message keeps a grouping well formed and extends it. */
  lemma PushKeepsGrouped(g: seq<Group>, m: GameState.Message)
    ensures Grouped(g) ==> Grouped(Push(g, m))
    ensures g != [] ==> PrefixGrouping(g, Push(g, m))
  {
    var r := Push(g, m);
    if |r| == |g| {
      assert forall i :: 0 <= i < |g| - 1 ==> r[i] == r[..|g| - 1][i];
    }
  }

  lemma PrefixGroupingTrans(p: seq<Group>, g: seq<Group>, r: seq<Group>)
    requires PrefixGrouping(p, g) && PrefixGrouping(g, r)
    ensures PrefixGrouping(p, r)
  {
    if |p| < |g| {
      assert g[|p| - 1] == r[|p| - 1];
    }
  }

  /** Run-length grouping of a sequence of messages: consecutive equal
      messages form one group. */
  function Groups(s: seq<GameState.Message>): (g: seq<Group>)
    ensures |g| <= |s|
    ensures s == [] <==> g == []
  {
    if s == [] then [] else Push(Groups(s[..|s| - 1]), s[|s| - 1])
  }

  /** Every group counts at least one message, and neighbouring groups
      hold different messages. */
  lemma {:induction false} GroupsGrouped(s: seq<GameState.Message>)
    ensures Grouped(Groups(s))
  {
    if s != [] {
      GroupsGrouped(s[..|s| - 1]);
      PushKeepsGrouped(Groups(s[..|s| - 1]), s[|s| - 1]);
    }
  }

  lemma GroupsSnoc(s: seq<GameState.Message>, j: nat)
    requires j < |s|
    ensures Groups(s[..j + 1]) == Push(Groups(s[..j]), s[j])
  {
    assert s[..j + 1][..j] == s[..j];
  }

  /** The messages a list of groups stands for. */
  function Expand(g: seq<Group>): (s: seq<GameState.Message>)
  {
    if g == [] then [] else Expand(g[..|g| - 1]) + Repeat(g[|g| - 1].message, g[|g| - 1].count)
  }

  function Repeat(m: GameState.Message, n: nat): (s: seq<GameState.Message>)
    ensures |s| == n && forall i :: 0 <= i < n ==> s[i] == m
  {
    if n == 0 then [] else Repeat(m, n - 1) + [m]
  }

  /** Grouping loses nothing: expanding the groups gives the messages
      back. */
  lemma {:induction false} GroupsRoundTrip(s: seq<GameState.Message>)
    ensures Expand(Groups(s)) == s
  {
    if s != [] {
      var init := s[..|s| - 1];
      var m := s[|s| - 1];
      assert s == init + [m];
      calc {
        Expand(Groups(s));
        Expand(Push(Groups(init), m));
        { ExpandPush(Groups(init), m); }
        Expand(Groups(init)) + [m];
        { GroupsRoundTrip(init); }
        init + [m];
      }
    }
  }

  /** Pushing a message adds exactly that message to the expansion. */
  lemma ExpandPush(g: seq<Group>, m: GameState.Message)
    ensures Expand(Push(g, m)) == Expand(g) + [m]
  {
    var r := Push(g, m);
    if |r| == |g| {
      var last := g[|g| - 1];
      assert r[..|r| - 1] == g[..|g| - 1];
      calc {
        Expand(r);
        Expand(g[..|g| - 1]) + Repeat(m, last.count + 1);
        Expand(g[..|g| - 1]) + Repeat(m, last.count) + [m];
        Expand(g) + [m];
      }
    } else {
      assert r[..|r| - 1] == g;
    }
  }

  /** Grouping a longer sequence keeps the earlier groups. */
  lemma {:induction false} GroupsOfPrefix(s: seq<GameState.Message>, n: nat)
    requires 0 < n <= |s|
    ensures PrefixGrouping(Groups(s[..n]), Groups(s))
  {
    if n < |s| {
      var init := s[..|s| - 1];
      assert init[..n] == s[..n];
      GroupsOfPrefix(init, n);
      assert Groups(s) == Push(Groups(init), s[|s| - 1]);
      PushKeepsGrouped(Groups(init), s[|s| - 1]);
      PrefixGroupingTrans(Groups(s[..n]), Groups(init), Groups(s));
    } else {
      assert s[..n] == s;
    }
  }

  /** The groups `render_messages` shows, newest first, as the code
      computes them: the limit is tested before a message is merged into
      the last group, so the fourth group always counts one message. */
  function ShownGroupsAsWritten(log: seq<GameState.Message>): (g: seq<Group>)
  {
    var all := Groups(Reversed(log));
    if |all| < MAX_GROUPS then all else all[..MAX_GROUPS - 1] + [Group(1, all[MAX_GROUPS - 1].message)]
  }

  /** The groups meant to be shown: the four newest groups, each with its
      full count. */
  function ShownGroups(log: seq<GameState.Message>): (g: seq<Group>)
    ensures |g| <= MAX_GROUPS && |g| <= |Groups(Reversed(log))|
    ensures g == Groups(Reversed(log))[..|g|]
    ensures |g| < MAX_GROUPS ==> g == Groups(Reversed(log))
  {
    var all := Groups(Reversed(log));
    if |all| < MAX_GROUPS then all else all[..MAX_GROUPS]
  }

  function Reversed(s: seq<GameState.Message>): (r: seq<GameState.Message>)
    ensures |r| == |s| && forall i :: 0 <= i < |s| ==> r[i] == s[|s| - 1 - i]
  {
    if s == [] then [] else [s[|s| - 1]] + Reversed(s[..|s| - 1])
  }

  /** The grouping loop of `render_messages` as written: it walks the log
      newest first, stops once four groups exist, and otherwise merges a
      message equal to the last group's or starts a new group. */
  method GroupMessagesAsWritten(log: seq<GameState.Message>) returns (groups: seq<Group>)
    ensures groups == ShownGroupsAsWritten(log)
  {
    var newest := Reversed(log);
    groups := [];
    var j := 0;
    while j < |newest|
      invariant 0 <= j <= |newest|
      invariant groups == Groups(newest[..j]) && |groups| <= MAX_GROUPS
      invariant |groups| == MAX_GROUPS ==> groups[MAX_GROUPS - 1].count == 1
    {
      if |groups| >= MAX_GROUPS {
        break;
      }
      GroupsSnoc(newest, j);
      groups := Push(groups, newest[j]);
      j := j + 1;
    }
    StoppedAsWritten(newest, j);
  }

  /** Where the loop as written stops, its groups are those of
      `ShownGroupsAsWritten`. */
  lemma StoppedAsWritten(newest: seq<GameState.Message>, j: nat)
    requires j <= |newest| && |Groups(newest[..j])| <= MAX_GROUPS
    requires |Groups(newest[..j])| == MAX_GROUPS ==> Groups(newest[..j])[MAX_GROUPS - 1].count == 1
    requires j < |newest| ==> |Groups(newest[..j])| == MAX_GROUPS
    ensures var all := Groups(newest);
      Groups(newest[..j]) == if |all| < MAX_GROUPS then all else all[..MAX_GROUPS - 1] + [Group(1, all[MAX_GROUPS - 1].message)]
  {
    var groups := Groups(newest[..j]);
    var all := Groups(newest);
    if j == |newest| {
      assert newest[..j] == newest;
    } else {
      GroupsOfPrefix(newest, j);
    }
    if |groups| == MAX_GROUPS {
      assert groups[..MAX_GROUPS - 1] == all[..MAX_GROUPS - 1];
      assert groups == groups[..MAX_GROUPS - 1] + [groups[MAX_GROUPS - 1]];
    }
  }

  /** The grouping loop with the limit tested only before a new group is
      started, so that every shown group keeps its full count. */
  method GroupMessages(log: seq<GameState.Message>) returns (groups: seq<Group>)
    ensures groups == ShownGroups(log)
  {
    var j;
    groups, j := GroupNewest(Reversed(log));
    StoppedCapped(log, j);
  }

  /** The capped loop over the messages, newest first: it stops at the
      end or at the first message that would start a fifth group. */
  method GroupNewest(newest: seq<GameState.Message>) returns (groups: seq<Group>, j: nat)
    ensures j <= |newest| && groups == Groups(newest[..j]) && |groups| <= MAX_GROUPS
    ensures j < |newest| ==> |groups| >= MAX_GROUPS && groups[|groups| - 1].message != newest[j]
  {
    groups := [];
    j := 0;
    while j < |newest|
      invariant 0 <= j <= |newest|
      invariant groups == Groups(newest[..j]) && |groups| <= MAX_GROUPS
    {
      var m := newest[j];
      if |groups| >= MAX_GROUPS && groups[|groups| - 1].message != m {
        return;
      }
      CappedStep(newest, j);
      groups := Push(groups, m);
      j := j + 1;
    }
  }

  /** Where the capped loop stops, its groups are the ones shown. */
  lemma StoppedCapped(log: seq<GameState.Message>, j: nat)
    requires j <= |log|
    requires var g := Groups(Reversed(log)[..j]);
      && |g| <= MAX_GROUPS
      && (j < |log| ==> |g| >= MAX_GROUPS && g[|g| - 1].message != Reversed(log)[j])
    ensures ShownGroups(log) == Groups(Reversed(log)[..j])
  {
    if j == |log| {
      assert Reversed(log)[..j] == Reversed(log);
      ShownWhenFew(log);
    } else {
      ShownWhenCapped(log, j);
    }
  }

  /** A message that does not start a fifth group keeps at most four. */
  lemma CappedStep(s: seq<GameState.Message>, j: nat)
    requires j < |s|
    requires var g := Groups(s[..j]); |g| <= MAX_GROUPS && (|g| >= MAX_GROUPS ==> g[|g| - 1].message == s[j])
    ensures Groups(s[..j + 1]) == Push(Groups(s[..j]), s[j]) && |Groups(s[..j + 1])| <= MAX_GROUPS
  {
    GroupsSnoc(s, j);
  }

  /** A log of at most four groups is shown whole. */
  lemma ShownWhenFew(log: seq<GameState.Message>)
    requires |Groups(Reversed(log))| <= MAX_GROUPS
    ensures ShownGroups(log) == Groups(Reversed(log))
  {
    var all := Groups(Reversed(log));
    assert all[..|all|] == all;
  }

  /** Once four groups are complete, that is, the next message starts a
      fifth, they are the groups shown. */
  lemma ShownWhenCapped(log: seq<GameState.Message>, j: nat)
    requires j < |log|
    requires var p := Groups(Reversed(log)[..j]); |p| == MAX_GROUPS && p[MAX_GROUPS - 1].message != Reversed(log)[j]
    ensures ShownGroups(log) == Groups(Reversed(log)[..j])
  {
    var newest := Reversed(log);
    var groups := Groups(newest[..j]);
    GroupsSnoc(newest, j);
    GroupsOfPrefix(newest, j + 1);
    var all := Groups(newest);
    assert forall i :: 0 <= i < MAX_GROUPS ==> groups[i] == all[i];
    assert groups == all[..MAX_GROUPS];
  }

  /** With the log `[Wait, Wait, OpenDoor, CloseDoor, ActionError]`, oldest
      first, the loop as written shows the two waits as one, while the
      intended grouping counts both. */
  lemma FourthGroupUndercounted()
    ensures var log := [GameState.Message.Wait, GameState.Message.Wait, GameState.OpenDoor, GameState.CloseDoor, GameState.Message.ActionError(GameState.InvalidMove)];
      && |ShownGroupsAsWritten(log)| == 4 && ShownGroupsAsWritten(log)[3] == Group(1, GameState.Message.Wait)
      && |ShownGroups(log)| == 4 && ShownGroups(log)[3] == Group(2, GameState.Message.Wait)
  {
    var log := [GameState.Message.Wait, GameState.Message.Wait, GameState.OpenDoor, GameState.CloseDoor, GameState.Message.ActionError(GameState.InvalidMove)];
    var newest := Reversed(log);
    assert newest[..0] == [];
    GroupsSnoc(newest, 0);
    GroupsSnoc(newest, 1);
    GroupsSnoc(newest, 2);
    GroupsSnoc(newest, 3);
    GroupsSnoc(newest, 4);
    assert newest[..5] == newest;
  }

  /** The fade and the row of the `i`-th group shown: the newest group is
      the most opaque and sits on the bottom row; each older one is fainter
      by 50 and one row higher. */
  function GroupStyle(i: nat): (r: (u8, int))
    requires i < MAX_GROUPS
    ensures r.0 as int == 255 - 50 * i && r.0 >= 105
    ensures r.1 == MAX_GROUPS as int - 1 - i && 0 <= r.1 < MAX_GROUPS
  {
    ((255 - 50 * i) as u8, MAX_GROUPS as int - i - 1)
  }

  /** Older groups are drawn fainter and higher, so no two groups share a
      row. */
  lemma GroupStylesDistinct(i: nat, j: nat)
    requires i < j < MAX_GROUPS
    ensures GroupStyle(i).0 > GroupStyle(j).0 && GroupStyle(i).1 > GroupStyle(j).1
  {
  }

  // ----- organ and item names -----

  datatype OrganType =
    | Heart | Liver | Lung | Stomach | Appendix | Tumour
    | CronenbergPistol | CronenbergShotgun | CyberCore | Claw | CorruptedHeart

  datatype OrganTrait = Prolific | Vampiric | Radioactive | Damaged | Transient | Embedded

  /** An organ: its type, whether it is cybernetic, and its traits in the
      order `OrganTraits::traits` lists them. */
  datatype Organ = Organ(organType: OrganType, cybernetic: bool, traits: seq<OrganTrait>)

  datatype Item =
    | Stimpack | Antidote | BloodVialEmpty | BloodVialFull | Food | AntiRads | Battery
    | OrganContainer(organ: Option<Organ>)
    | Pistol | Shotgun | RocketLauncher | PistolAmmo | ShotgunAmmo | Rocket

  /** `organ_type_name`. */
  function OrganTypeName(t: OrganType): (s: string)
    ensures s != []
  {
    match t
    case Heart => "heart"
    case Liver => "liver"
    case Lung => "lung"
    case Stomach => "stomach"
    case Appendix => "appendix"
    case Tumour => "tumour"
    case CronenbergPistol => "Cronenberg Pistol"
    case CronenbergShotgun => "Cronenberg Shotgun"
    case CyberCore => "CyberCore™"
    case Claw => "claw"
    case CorruptedHeart => "CORRUPTED HEART"
  }

  /** A name with its first letter in upper case. */
  function Capitalised(s: string): (r: string)
    ensures |r| == |s| && (s != [] ==> r[1..] == s[1..])
  {
    if s != [] && 'a' <= s[0] <= 'z' then [(s[0] as int - 32) as char] + s[1..] else s
  }

  /** `organ_type_name_cap` as written: it gives the tumour its lower-case
      name. */
  function OrganTypeNameCapAsWritten(t: OrganType): (s: string)
    ensures t != Tumour ==> s == OrganTypeNameCap(t)
  {
    match t
    case Tumour => "tumour"
    case _ => OrganTypeNameCap(t)
  }

  /** The tumour's name as written is not capitalised. */
  lemma TumourNotCapitalised()
    ensures OrganTypeNameCapAsWritten(Tumour) != Capitalised(OrganTypeName(Tumour))
  {
    assert OrganTypeNameCapAsWritten(Tumour)[0] == 't';
  }

  /** The capitalised organ names, tumour included: each is the plain name
      with its first letter in upper case. */
  function OrganTypeNameCap(t: OrganType): (s: string)
    ensures s == Capitalised(OrganTypeName(t))
  {
    match t
    case Heart => "Heart"
    case Liver => "Liver"
    case Lung => "Lung"
    case Stomach => "Stomach"
    case Appendix => "Appendix"
    case Tumour => "Tumour"
    case CronenbergPistol => "Cronenberg Pistol"
    case CronenbergShotgun => "Cronenberg Shotgun"
    case CyberCore => "CyberCore™"
    case Claw => "Claw"
    case CorruptedHeart => "CORRUPTED HEART"
  }

  /** `organ_trait_name`. */
  function OrganTraitName(t: OrganTrait): (s: string)
    ensures s != []
  {
    match t
    case Prolific => "prolific"
    case Vampiric => "vampiric"
    case Radioactive => "radioactive"
    case Damaged => "damaged"
    case Transient => "transient"
    case Embedded => "embedded"
  }

  /** The names of a list of traits. */
  function TraitNames(ts: seq<OrganTrait>): (names: seq<string>)
    ensures |names| == |ts|
  {
    seq(|ts|, i requires 0 <= i < |ts| => OrganTraitName(ts[i]))
  }

  /** Strings joined with `", "` between neighbours. */
  function Join(xs: seq<string>): (s: string)
  {
    if xs == [] then ""
    else if |xs| == 1 then xs[0]
    else xs[0] + ", " + Join(xs[1..])
  }

  /** Joining one more string appends a separator and that string. */
  lemma {:induction false} JoinSnoc(xs: seq<string>, x: string)
    requires xs != []
    ensures Join(xs + [x]) == Join(xs) + ", " + x
  {
    if |xs| == 1 {
      assert (xs + [x])[1..] == [x];
    } else {
      assert (xs + [x])[1..] == xs[1..] + [x];
      JoinSnoc(xs[1..], x);
    }
  }

  /** What `organ_traits_string` builds: nothing for an organ without
      traits, and otherwise the trait names joined with `", "` in
      parentheses after a space. */
  function TraitsString(ts: seq<OrganTrait>): (s: string)
    ensures s == [] <==> ts == []
    ensures ts != [] ==> |s| >= 3 && s[..2] == " (" && s[|s| - 1] == ')'
  {
    if ts == [] then "" else " (" + Join(TraitNames(ts)) + ")"
  }

  /** The traits string is empty exactly for an organ without traits, and
      otherwise opens with " (", closes with ")" and holds one name per
      trait, in order, with ", " between neighbours. */
  lemma TraitsStringShape(ts: seq<OrganTrait>)
    ensures TraitsString(ts) == [] <==> ts == []
    ensures ts != [] ==> var s := TraitsString(ts);
      && |s| >= 3 && s[..2] == " (" && s[|s| - 1] == ')'
      && s[2..|s| - 1] == Join(TraitNames(ts))
  {
  }

  /** `organ_traits_string`: nothing for an organ without traits, and
      otherwise the names of its traits pushed one by one after " (". */
  method OrganTraitsString(ts: seq<OrganTrait>) returns (s: string)
    ensures s == TraitsString(ts)
  {
    if ts == [] {
      return "";
    }
    s := JoinParenthesised(TraitNames(ts));
  }

  /** The loop of `organ_traits_string`: each name is pushed, followed by
      ", " or, after the last, by ")". */
  method JoinParenthesised(names: seq<string>) returns (s: string)
    requires names != []
    ensures s == " (" + Join(names) + ")"
  {
    var n := |names|;
    s := " (";
    for i := 0 to n
      invariant i < n ==> s == " (" + (if i == 0 then "" else Join(names[..i]) + ", ")
      invariant i == n ==> s == " (" + Join(names) + ")"
    {
      JoinPrefixStep(names, i);
      s := s + names[i];
      if i == n - 1 {
        assert names[..i + 1] == names;
        s := s + ")";
      } else {
        s := s + ", ";
      }
    }
  }

  /** The first `i + 1` strings, joined, extend the first `i`. */
  lemma JoinPrefixStep(xs: seq<string>, i: nat)
    requires i < |xs|
    ensures Join(xs[..i + 1]) == (if i == 0 then "" else Join(xs[..i]) + ", ") + xs[i]
  {
    if i == 0 {
      assert xs[..1] == [xs[0]];
    } else {
      assert xs[..i + 1] == xs[..i] + [xs[i]];
      JoinSnoc(xs[..i], xs[i]);
    }
  }

  /** The article chosen as written in `organ_string_for_description`: it
      looks at the organ type only, even when " cybernetic" comes
      between it and the name. */
  function OrganDescriptionAsWritten(o: Organ): (s: string)
    ensures s == OrganDescription(o) <==> !(o.cybernetic && o.organType == Appendix)
  {
    NameInitialVowel(o.organType);
    assert !IsVowel("cybernetic"[0]);
    var article := if o.organType == Appendix then "an" else "a";
    var cybernetic := if o.cybernetic then " cybernetic" else "";
    article + cybernetic + " " + OrganTypeName(o.organType) + TraitsString(o.traits)
  }

  /** A cybernetic appendix is described as "an cybernetic appendix". */
  lemma CyberneticAppendixArticle()
    ensures OrganDescriptionAsWritten(Organ(Appendix, true, []))[..15] == "an cybernetic a"
  {
  }

  function IsVowel(c: char): bool
  {
    c in "aeiouAEIOU"
  }

  /** `organ_string_for_description` with the article chosen by the word
      that follows it: "an" exactly when that word starts with a vowel. */
  function OrganDescription(o: Organ): (s: string)
    ensures |s| >= 2 && s[0] == 'a'
    ensures |s| >= |TraitsString(o.traits)| && s[|s| - |TraitsString(o.traits)|..] == TraitsString(o.traits)
  {
    var next := if o.cybernetic then "cybernetic" else OrganTypeName(o.organType);
    var article := if IsVowel(next[0]) then "an" else "a";
    var cybernetic := if o.cybernetic then " cybernetic" else "";
    article + cybernetic + " " + OrganTypeName(o.organType) + TraitsString(o.traits)
  }

  /** The description starts with the article, a space and the next word;
      the article is "an" exactly when that word starts with a vowel, which
      for the organs here means a plain appendix; " cybernetic" is present
      exactly for cybernetic organs, and the traits come last. */
  lemma OrganDescriptionShape(o: Organ)
    ensures var s := OrganDescription(o);
      var article := if !o.cybernetic && o.organType == Appendix then "an" else "a";
      var next := if o.cybernetic then "cybernetic" else OrganTypeName(o.organType);
      && s == article + " " + next + (if o.cybernetic then " " + OrganTypeName(o.organType) else "") + TraitsString(o.traits)
      && (article == "an" <==> IsVowel(next[0]))
  {
    ArticleByVowel(o);
    DescriptionLayout(o);
  }

  lemma ArticleByVowel(o: Organ)
    ensures var next := if o.cybernetic then "cybernetic" else OrganTypeName(o.organType);
      IsVowel(next[0]) <==> !o.cybernetic && o.organType == Appendix
  {
    NameInitialVowel(o.organType);
    assert !IsVowel("cybernetic"[0]);
  }

  lemma DescriptionLayout(o: Organ)
    requires var next := if o.cybernetic then "cybernetic" else OrganTypeName(o.organType);
      IsVowel(next[0]) <==> !o.cybernetic && o.organType == Appendix
    ensures var article := if !o.cybernetic && o.organType == Appendix then "an" else "a";
      var next := if o.cybernetic then "cybernetic" else OrganTypeName(o.organType);
      OrganDescription(o) == article + " " + next + (if o.cybernetic then " " + OrganTypeName(o.organType) else "") + TraitsString(o.traits)
  {
    var name, traits := OrganTypeName(o.organType), TraitsString(o.traits);
    var article := if !o.cybernetic && o.organType == Appendix then "an" else "a";
    assert OrganDescription(o) == article + (if o.cybernetic then " cybernetic" else "") + " " + name + traits;
    Layout(article, o.cybernetic, name, traits);
  }

  /** Moving the space in front of " cybernetic" to after it. */
  lemma Layout(article: string, cybernetic: bool, name: string, traits: string)
    ensures article + (if cybernetic then " cybernetic" else "") + " " + name + traits
      == article + " " + (if cybernetic then "cybernetic" else name) + (if cybernetic then " " + name else "") + traits
  {
    if cybernetic {
      assert " cybernetic" + " " + name == " " + "cybernetic" + (" " + name);
    }
  }

  /** Of the organ names only "appendix" starts with a vowel. */
  lemma NameInitialVowel(t: OrganType)
    ensures IsVowel(OrganTypeName(t)[0]) <==> t == Appendix
  {
    match t {
      case Heart =>
      case Liver =>
      case Lung =>
      case Stomach =>
      case Appendix =>
      case Tumour =>
      case CronenbergPistol =>
      case CronenbergShotgun =>
      case CyberCore =>
      case Claw =>
      case CorruptedHeart =>
    }
  }

  /** `organ_string_for_menu`: "Cybernetic " for a cybernetic organ, the
      capitalised name, then the traits. */
  function OrganStringForMenu(o: Organ): (s: string)
    ensures |s| > 0 && 'A' <= s[0] <= 'Z'
  {
    var cybernetic := if o.cybernetic then "Cybernetic " else "";
    cybernetic + OrganTypeNameCap(o.organType) + TraitsString(o.traits)
  }

  /** The menu string of an organ is its name and traits, as in its
      description, capitalised and preceded by "Cybernetic " for a
      cybernetic organ. */
  lemma MenuStringCapitalised(o: Organ)
    ensures var nameAndTraits := OrganTypeName(o.organType) + TraitsString(o.traits);
      OrganStringForMenu(o) == (if o.cybernetic then "Cybernetic " else "") + Capitalised(nameAndTraits)
  {
    var name := OrganTypeName(o.organType);
    var traits := TraitsString(o.traits);
    CapitalisedConcat(name, traits);
    assert OrganTypeNameCap(o.organType) == Capitalised(name);
  }

  lemma CapitalisedConcat(a: string, b: string)
    requires a != []
    ensures Capitalised(a + b) == Capitalised(a) + b
  {
    assert (a + b)[0] == a[0];
    assert (a + b)[1..] == a[1..] + b;
  }

  /** `item_string_for_menu`. */
  function ItemStringForMenu(item: Item): (s: string)
    ensures |s| > 0 && 'A' <= s[0] <= 'Z'
  {
    match item
    case Stimpack => "Stimpack"
    case Antidote => "Antidote"
    case BloodVialEmpty => "Blood Vial (empty)"
    case BloodVialFull => "Blood Vial (full)"
    case Food => "Food"
    case AntiRads => "AntiRads™"
    case Battery => "Battery"
    case OrganContainer(None) => "Organ Container (empty)"
    case OrganContainer(Some(organ)) => "Organ Container with " + OrganDescription(organ)
    case Pistol => "Pistol"
    case Shotgun => "Shotgun"
    case RocketLauncher => "Rocket Launcher"
    case PistolAmmo => "Pistol Bullets"
    case ShotgunAmmo => "Shotgun Shells"
    case Rocket => "Rocket"
  }

  /** Reads an item back from its menu string, for every item but a full
      organ container. */
  function ItemOfMenuString(s: string): (r: Option<Item>)
  {
    if s == "Stimpack" then Some(Stimpack)
    else if s == "Antidote" then Some(Antidote)
    else if s == "Blood Vial (empty)" then Some(BloodVialEmpty)
    else if s == "Blood Vial (full)" then Some(BloodVialFull)
    else if s == "Food" then Some(Food)
    else if s == "AntiRads™" then Some(AntiRads)
    else if s == "Battery" then Some(Battery)
    else if s == "Organ Container (empty)" then Some(OrganContainer(None))
    else if s == "Pistol" then Some(Pistol)
    else if s == "Shotgun" then Some(Shotgun)
    else if s == "Rocket Launcher" then Some(RocketLauncher)
    else if s == "Pistol Bullets" then Some(PistolAmmo)
    else if s == "Shotgun Shells" then Some(ShotgunAmmo)
    else if s == "Rocket" then Some(Rocket)
    else None
  }

  /** The menu strings of different items differ: each one but a full
      organ container's can be read back, and a full organ container's is
      none of theirs. */
  lemma ItemMenuStringRoundTrip(item: Item)
    ensures !(item.OrganContainer? && item.organ.Some?) ==> ItemOfMenuString(ItemStringForMenu(item)) == Some(item)
    ensures item.OrganContainer? && item.organ.Some? ==> ItemOfMenuString(ItemStringForMenu(item)).None?
  {
    if item.OrganContainer? && item.organ.Some? {
      FullContainerNotRead(item.organ.value);
    } else {
      ItemReadBack(item);
    }
  }

  lemma ItemReadBack(item: Item)
    requires !(item.OrganContainer? && item.organ.Some?)
    ensures ItemOfMenuString(ItemStringForMenu(item)) == Some(item)
  {
  }

  lemma FullContainerNotRead(organ: Organ)
    ensures ItemOfMenuString(ItemStringForMenu(OrganContainer(Some(organ)))).None?
  {
    // longer than every string that is read back
    assert |ItemStringForMenu(OrganContainer(Some(organ)))| >= |"Organ Container with "| + 3;
  }
}
