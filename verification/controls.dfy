/** The key bindings of the app: which keyboard input stands for which
    action. */
module Controls {
  import opened Wrappers
  import opened Geometry

  /** The actions a key can be bound to. */
  datatype AppInput =
    | Direction(direction: CardinalDirection)
    | Wait
    | FireEquipped
    | FireBody
    | MessageLog
    | Get
    | DropItem
    | ApplyItem
    | UnequipItem
    | Reload
    | ViewOrgans

  /** Keyboard inputs: the arrow keys, characters, and the other keys of
      the terminal library, which no binding uses. */
  datatype KeyboardInput = Left | Right | Up | Down | Char(c: char) | Function(n: nat) | Home | End | PageUp | PageDown | Delete

  /** Mouse inputs carry the coordinate of the pointer. */
  datatype MouseInput = MouseMove(coord: Coord) | MousePress(coord: Coord) | MouseRelease(coord: Coord) | MouseScroll(coord: Coord)

  datatype Input = Keyboard(key: KeyboardInput) | Mouse(mouse: MouseInput)

  /** `Controls`: a map from keyboard inputs to actions. */
  datatype Controls = Controls(keys: map<KeyboardInput, AppInput>) {
    /** `Controls::get`: a keyboard input's bound action, if any; mouse
        inputs are never bound. */
    function Get(input: Input): (r: Option<AppInput>)
      ensures input.Mouse? ==> r.None?
      ensures input.Keyboard? ==> (r.Some? <==> input.key in keys)
      ensures input.Keyboard? && r.Some? ==> r.value == keys[input.key]
    {
      match input
      case Keyboard(key) => if key in keys then Some(keys[key]) else None
      case Mouse(_) => None
    }
  }

  /** The keys the default controls bind, in the order they are listed. */
  const DEFAULT_KEYS: seq<KeyboardInput> :=
    [Left, Right, Up, Down, Char(' '), Char('f'), Char('c'), Char('m'), Char('g'), Char('d'), Char('a'), Char('u'), Char('r'), Char('o')]

  /** The action the default controls bind to a key, if any. */
  function DefaultBinding(k: KeyboardInput): (r: Option<AppInput>)
    ensures r.Some? ==> k.Char? || k in [Left, Right, Up, Down]
  {
    match k
    case Left => Some(Direction(West))
    case Right => Some(Direction(East))
    case Up => Some(Direction(North))
    case Down => Some(Direction(South))
    case Char(c) =>
      if c == ' ' then Some(Wait)
      else if c == 'f' then Some(FireEquipped)
      else if c == 'c' then Some(FireBody)
      else if c == 'm' then Some(MessageLog)
      else if c == 'g' then Some(AppInput.Get)
      else if c == 'd' then Some(DropItem)
      else if c == 'a' then Some(ApplyItem)
      else if c == 'u' then Some(UnequipItem)
      else if c == 'r' then Some(Reload)
      else if c == 'o' then Some(ViewOrgans)
      else None
    case _ => None
  }

  /** `Controls::default`: the arrow keys walk, space waits, and nine
      letters start the other actions. */
  function DefaultControls(): (c: Controls)
    ensures forall k :: k in c.keys <==> DefaultBinding(k).Some?
    ensures forall k :: k in c.keys ==> Some(c.keys[k]) == DefaultBinding(k)
  {
    Controls(map k | k in DEFAULT_KEYS && DefaultBinding(k).Some? :: DefaultBinding(k).value)
  }

  /** The key the default controls give each action. */
  function DefaultKeyFor(a: AppInput): (k: KeyboardInput)
    ensures k in DEFAULT_KEYS
  {
    match a
    case Direction(West) => Left
    case Direction(East) => Right
    case Direction(North) => Up
    case Direction(South) => Down
    case Wait => Char(' ')
    case FireEquipped => Char('f')
    case FireBody => Char('c')
    case MessageLog => Char('m')
    case Get => Char('g')
    case DropItem => Char('d')
    case ApplyItem => Char('a')
    case UnequipItem => Char('u')
    case Reload => Char('r')
    case ViewOrgans => Char('o')
  }

  /** The default controls bind exactly the fourteen keys listed. */
  lemma DefaultControlsKeys()
    ensures DefaultControls().keys.Keys == set k | k in DEFAULT_KEYS
    ensures |DefaultControls().keys| == 14
  {
    DistinctCard(DEFAULT_KEYS);
  }

  /** `DefaultKeyFor` and `DefaultBinding` are inverse: the key given to
      an action is bound to that action, and every bound key is the one
      given to its action. */
  lemma BindingInverse(a: AppInput, k: KeyboardInput)
    ensures DefaultBinding(DefaultKeyFor(a)) == Some(a)
    ensures DefaultBinding(k).Some? ==> DefaultKeyFor(DefaultBinding(k).value) == k
  {
    KeyForBound(a);
    BoundKeyFor(k);
  }

  lemma KeyForBound(a: AppInput)
    ensures DefaultBinding(DefaultKeyFor(a)) == Some(a)
  {
  }

  lemma BoundKeyFor(k: KeyboardInput)
    ensures DefaultBinding(k).Some? ==> DefaultKeyFor(DefaultBinding(k).value) == k
  {
    match k {
      case Char(c) =>
      case _ =>
    }
  }

  /** Exactly the listed keys are bound. */
  lemma BoundKeys(k: KeyboardInput)
    ensures DefaultBinding(k).Some? <==> k in DEFAULT_KEYS
  {
  }

  /** Every action has a key in the default controls: the one
      `DefaultKeyFor` gives. */
  lemma DefaultControlsCoverActions(a: AppInput)
    ensures DefaultKeyFor(a) in DefaultControls().keys && DefaultControls().keys[DefaultKeyFor(a)] == a
  {
    BindingInverse(a, Left);
  }

  /** No two keys share an action in the default controls: `DefaultKeyFor`
      gives back the key of every binding. */
  lemma DefaultControlsInjective(k: KeyboardInput)
    ensures k in DefaultControls().keys ==> DefaultKeyFor(DefaultControls().keys[k]) == k
  {
    BindingInverse(Wait, k);
  }

  /** A list with no repetition has as many elements as its set. */
  lemma {:induction false} DistinctCard<T>(s: seq<T>)
    requires forall i, j :: 0 <= i < j < |s| ==> s[i] != s[j]
    ensures |set x | x in s| == |s|
  {
    if s != [] {
      DistinctCard(s[1..]);
      assert (set x | x in s) == {s[0]} + (set x | x in s[1..]);
      assert s[0] !in (set x | x in s[1..]);
    }
  }

  /** What the default controls do with every input: arrows walk in their
      direction, the bound characters start their action, and every other
      input, every mouse input among them, does nothing. */
  lemma DefaultGet(input: Input)
    ensures input.Keyboard? && input.key in DEFAULT_KEYS ==> DefaultControls().Get(input).Some?
    ensures input.Mouse? || (input.Keyboard? && input.key !in DEFAULT_KEYS) ==> DefaultControls().Get(input).None?
    ensures input.Keyboard? && input.key in [Left, Right, Up, Down] ==> DefaultControls().Get(input).value.Direction?
  {
  }
}
