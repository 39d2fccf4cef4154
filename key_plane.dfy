/**
 * `KeyPlane`: the computer keyboard as a discrete two-dimensional control
 * surface. Each key of the four character rows has a column x and a row y;
 * a key event calls the user's callback with those coordinates and, if the
 * callback takes them, whether the key went down or up and which modifier
 * keys are held. The keyboard listener delivers each event as a key name
 * (possibly None) and a key code.
 */
module KeyPlanes {
  import opened Wrappers
  import Builtins

  /** The key codes of each row, bottom row (y = 0) to number row (y = 3). */
  const KeyCodes: seq<seq<int>> := [
    [90, 88, 67, 86, 66, 78, 77, 188, 190, 191],
    [65, 83, 68, 70, 71, 72, 74, 75, 76, 186, 222],
    [81, 87, 69, 82, 84, 89, 85, 73, 79, 80, 219, 221],
    [49, 50, 51, 52, 53, 54, 55, 56, 57, 48, 189, 187]
  ]

  /** `all_modifiers`, as listed: "up" appears twice and "right" not at all. */
  const AllModifiers: seq<string> :=
    ["ctrl", "alt", "shift", "cmd", "caps_lock", "tab", "enter", "backspace", "up", "left", "down", "up"]

  datatype KeyAction = Press | Release

  /** A key's place in the table: column x of row y. */
  datatype Key = Key(x: nat, y: nat)

  /** The coordinates passed on: the key's column and row, or both scaled into [0, 1]. */
  datatype Coordinates = Grid(x: nat, y: nat) | Normalized(nx: real, ny: real)

  /** A user function, and the number of parameters its signature declares. */
  datatype Callback = Callback(id: nat, parameters: nat)

  /** The arguments a callback receives, by how many parameters it declared. */
  datatype Arguments =
    | WithModifiers(coordinates: Coordinates, action: KeyAction, modifiers: seq<string>)
    | WithAction(coordinates: Coordinates, action: KeyAction)
    | CoordinatesOnly(coordinates: Coordinates)

  /** One call of the callback. */
  datatype Invocation = Invocation(callback: nat, args: Arguments)

  /** The setter's `assert` on the callback's parameter count. */
  datatype KeyPlaneError = AssertionError

  /** `name.replace("_r", "")`: every occurrence removed, scanning left to right. */
  function StripRight(name: string): (r: string)
    ensures |r| <= |name|
  {
    if |name| >= 2 && name[0] == '_' && name[1] == 'r' then StripRight(name[2..])
    else if name == [] then []
    else [name[0]] + StripRight(name[1..])
  }

  /** A right-hand modifier key ("shift_r") counts as the modifier it doubles. */
  lemma {:induction false} StripAppended(s: string)
    ensures StripRight(s + "_r") == StripRight(s)
  {
    if s == [] {
      assert StripRight("_r") == StripRight([]);
    } else if |s| >= 2 && s[0] == '_' && s[1] == 'r' {
      assert (s + "_r")[2..] == s[2..] + "_r";
      StripAppended(s[2..]);
    } else {
      assert (s + "_r")[1..] == s[1..] + "_r";
      StripAppended(s[1..]);
    }
  }

  /** No "_r" inside the name. */
  predicate Unmarked(s: string)
  {
    forall i :: 0 <= i < |s| - 1 ==> !(s[i] == '_' && s[i + 1] == 'r')
  }

  /** A name without "_r" is left as it is. */
  lemma {:induction false} StripUnmarked(s: string)
    requires Unmarked(s)
    ensures StripRight(s) == s
  {
    if s != [] {
      assert Unmarked(s[1..]);
      StripUnmarked(s[1..]);
    }
  }

  /** The name of a modifier key, after dropping "_r". */
  predicate IsModifier(name: string)
  {
    StripRight(name) in AllModifiers
  }

  /** None of the listed modifiers contains "_r". */
  lemma ModifiersUnmarked()
    ensures forall n :: n in AllModifiers ==> Unmarked(n)
  {
  }

  /** So every listed modifier is recognised from its left- and right-hand key names alike. */
  lemma RightHandModifier(m: string)
    requires m in AllModifiers
    ensures IsModifier(m) && IsModifier(m + "_r")
    ensures StripRight(m) == m && StripRight(m + "_r") == m
  {
    ModifiersUnmarked();
    StripUnmarked(m);
    StripAppended(m);
  }

  /** The right arrow key is no modifier, unlike the other three arrows. */
  lemma RightArrowNotModifier()
    ensures !IsModifier("right") && !IsModifier("right_r")
  {
    assert Unmarked("right");
    StripUnmarked("right");
    StripAppended("right");
    assert "right" !in AllModifiers;
  }

  /** `list.remove(v)` on a list holding `v`: its first occurrence taken out. */
  function RemoveFirst(s: seq<string>, v: string): (r: seq<string>)
    requires v in s
    ensures |r| == |s| - 1
    ensures multiset(r) == multiset(s) - multiset{v}
  {
    var i := Builtins.IndexOf(s, v);
    assert s == s[..i] + [v] + s[i + 1..];
    s[..i] + s[i + 1..]
  }

  /** The held modifiers after a key event: a press adds the modifier once, a release takes it out. */
  function ModifiersAfter(down: seq<string>, name: string, action: KeyAction): (r: seq<string>)
    ensures !IsModifier(name) ==> r == down
    ensures IsModifier(name) && action == Press ==> StripRight(name) in r && multiset(down) <= multiset(r)
    ensures IsModifier(name) && action == Press && StripRight(name) !in down ==> r == down + [StripRight(name)]
    ensures IsModifier(name) && action == Release ==> multiset(r) == multiset(down) - multiset{StripRight(name)}
  {
    if !IsModifier(name) then down
    else
      var modifier := StripRight(name);
      match action
      case Press => if modifier in down then down else down + [modifier]
      case Release => if modifier in down then RemoveFirst(down, modifier) else down
  }

  /** No modifier is ever held twice. */
  lemma ModifiersStayDistinct(down: seq<string>, name: string, action: KeyAction)
    requires Builtins.Distinct(down)
    ensures Builtins.Distinct(ModifiersAfter(down, name, action))
    ensures IsModifier(name) && action == Release ==> StripRight(name) !in ModifiersAfter(down, name, action)
  {
    var r := ModifiersAfter(down, name, action);
    if IsModifier(name) && action == Release && StripRight(name) in down {
      var m := StripRight(name);
      var i := Builtins.IndexOf(down, m);
      assert r == down[..i] + down[i + 1..];
      forall a, b | 0 <= a < b < |r|
        ensures r[a] != r[b]
      {
        var a', b' := if a < i then a else a + 1, if b < i then b else b + 1;
        assert r[a] == down[a'] && r[b] == down[b'];
      }
    }
  }

  /** Pressing and releasing a modifier not held leaves the held modifiers as they were. */
  lemma PressReleaseRestores(down: seq<string>, name: string)
    requires IsModifier(name) && StripRight(name) !in down
    ensures ModifiersAfter(ModifiersAfter(down, name, Press), name, Release) == down
  {
    var m := StripRight(name);
    var pressed := down + [m];
    assert Builtins.IndexOf(pressed, m) == |down| by {
      assert pressed[|down|] == m;
      assert forall j :: 0 <= j < |down| ==> pressed[j] != m;
    }
    assert pressed[..|down|] == down;
  }

  /** The key with this code, searching rows from y upwards. */
  function LocateFrom(number: int, y: nat): (r: Option<Key>)
    requires y <= |KeyCodes|
    ensures r.Some? ==> y <= r.value.y < |KeyCodes| && r.value.x < |KeyCodes[r.value.y]|
    ensures r.Some? ==> KeyCodes[r.value.y][r.value.x] == number
    ensures r.Some? ==> forall j :: 0 <= j < r.value.x ==> KeyCodes[r.value.y][j] != number
    ensures r.Some? ==> forall k :: y <= k < r.value.y ==> number !in KeyCodes[k]
    ensures r.None? <==> forall k :: y <= k < |KeyCodes| ==> number !in KeyCodes[k]
    decreases |KeyCodes| - y
  {
    if y == |KeyCodes| then None
    else if number in KeyCodes[y] then Some(Key(Builtins.IndexOf(KeyCodes[y], number), y))
    else LocateFrom(number, y + 1)
  }

  /** The key a code belongs to, if any: the first row holding it, at its first position there. */
  function Locate(number: int): (r: Option<Key>)
    ensures r.Some? ==> r.value.y < 4 && r.value.x < |KeyCodes[r.value.y]| && KeyCodes[r.value.y][r.value.x] == number
    ensures r.None? <==> forall k :: 0 <= k < |KeyCodes| ==> number !in KeyCodes[k]
  {
    LocateFrom(number, 0)
  }

  /** The table read backwards, code by code: the key each code belongs to. */
  ghost function Position(code: int): Option<Key>
  {
    if code == 90 then Some(Key(0, 0))
    else if code == 88 then Some(Key(1, 0))
    else if code == 67 then Some(Key(2, 0))
    else if code == 86 then Some(Key(3, 0))
    else if code == 66 then Some(Key(4, 0))
    else if code == 78 then Some(Key(5, 0))
    else if code == 77 then Some(Key(6, 0))
    else if code == 188 then Some(Key(7, 0))
    else if code == 190 then Some(Key(8, 0))
    else if code == 191 then Some(Key(9, 0))
    else if code == 65 then Some(Key(0, 1))
    else if code == 83 then Some(Key(1, 1))
    else if code == 68 then Some(Key(2, 1))
    else if code == 70 then Some(Key(3, 1))
    else if code == 71 then Some(Key(4, 1))
    else if code == 72 then Some(Key(5, 1))
    else if code == 74 then Some(Key(6, 1))
    else if code == 75 then Some(Key(7, 1))
    else if code == 76 then Some(Key(8, 1))
    else if code == 186 then Some(Key(9, 1))
    else if code == 222 then Some(Key(10, 1))
    else if code == 81 then Some(Key(0, 2))
    else if code == 87 then Some(Key(1, 2))
    else if code == 69 then Some(Key(2, 2))
    else if code == 82 then Some(Key(3, 2))
    else if code == 84 then Some(Key(4, 2))
    else if code == 89 then Some(Key(5, 2))
    else if code == 85 then Some(Key(6, 2))
    else if code == 73 then Some(Key(7, 2))
    else if code == 79 then Some(Key(8, 2))
    else if code == 80 then Some(Key(9, 2))
    else if code == 219 then Some(Key(10, 2))
    else if code == 221 then Some(Key(11, 2))
    else if code == 49 then Some(Key(0, 3))
    else if code == 50 then Some(Key(1, 3))
    else if code == 51 then Some(Key(2, 3))
    else if code == 52 then Some(Key(3, 3))
    else if code == 53 then Some(Key(4, 3))
    else if code == 54 then Some(Key(5, 3))
    else if code == 55 then Some(Key(6, 3))
    else if code == 56 then Some(Key(7, 3))
    else if code == 57 then Some(Key(8, 3))
    else if code == 48 then Some(Key(9, 3))
    else if code == 189 then Some(Key(10, 3))
    else if code == 187 then Some(Key(11, 3))
    else None
  }

  lemma Row0Positions(x: nat)
    requires x < |KeyCodes[0]|
    ensures Position(KeyCodes[0][x]) == Some(Key(x, 0))
  {
    if x == 0 {
      assert KeyCodes[0][0] == 90;
    } else if x == 1 {
      assert KeyCodes[0][1] == 88;
    } else if x == 2 {
      assert KeyCodes[0][2] == 67;
    } else if x == 3 {
      assert KeyCodes[0][3] == 86;
    } else if x == 4 {
      assert KeyCodes[0][4] == 66;
    } else if x == 5 {
      assert KeyCodes[0][5] == 78;
    } else if x == 6 {
      assert KeyCodes[0][6] == 77;
    } else if x == 7 {
      assert KeyCodes[0][7] == 188;
    } else if x == 8 {
      assert KeyCodes[0][8] == 190;
    } else if x == 9 {
      assert KeyCodes[0][9] == 191;
    }
  }

  lemma Row1Positions(x: nat)
    requires x < |KeyCodes[1]|
    ensures Position(KeyCodes[1][x]) == Some(Key(x, 1))
  {
    if x == 0 {
      assert KeyCodes[1][0] == 65;
    } else if x == 1 {
      assert KeyCodes[1][1] == 83;
    } else if x == 2 {
      assert KeyCodes[1][2] == 68;
    } else if x == 3 {
      assert KeyCodes[1][3] == 70;
    } else if x == 4 {
      assert KeyCodes[1][4] == 71;
    } else if x == 5 {
      assert KeyCodes[1][5] == 72;
    } else if x == 6 {
      assert KeyCodes[1][6] == 74;
    } else if x == 7 {
      assert KeyCodes[1][7] == 75;
    } else if x == 8 {
      assert KeyCodes[1][8] == 76;
    } else if x == 9 {
      assert KeyCodes[1][9] == 186;
    } else if x == 10 {
      assert KeyCodes[1][10] == 222;
    }
  }

  lemma Row2Positions(x: nat)
    requires x < |KeyCodes[2]|
    ensures Position(KeyCodes[2][x]) == Some(Key(x, 2))
  {
    if x == 0 {
      assert KeyCodes[2][0] == 81;
    } else if x == 1 {
      assert KeyCodes[2][1] == 87;
    } else if x == 2 {
      assert KeyCodes[2][2] == 69;
    } else if x == 3 {
      assert KeyCodes[2][3] == 82;
    } else if x == 4 {
      assert KeyCodes[2][4] == 84;
    } else if x == 5 {
      assert KeyCodes[2][5] == 89;
    } else if x == 6 {
      assert KeyCodes[2][6] == 85;
    } else if x == 7 {
      assert KeyCodes[2][7] == 73;
    } else if x == 8 {
      assert KeyCodes[2][8] == 79;
    } else if x == 9 {
      assert KeyCodes[2][9] == 80;
    } else if x == 10 {
      assert KeyCodes[2][10] == 219;
    } else if x == 11 {
      assert KeyCodes[2][11] == 221;
    }
  }

  lemma Row3Positions(x: nat)
    requires x < |KeyCodes[3]|
    ensures Position(KeyCodes[3][x]) == Some(Key(x, 3))
  {
    if x == 0 {
      assert KeyCodes[3][0] == 49;
    } else if x == 1 {
      assert KeyCodes[3][1] == 50;
    } else if x == 2 {
      assert KeyCodes[3][2] == 51;
    } else if x == 3 {
      assert KeyCodes[3][3] == 52;
    } else if x == 4 {
      assert KeyCodes[3][4] == 53;
    } else if x == 5 {
      assert KeyCodes[3][5] == 54;
    } else if x == 6 {
      assert KeyCodes[3][6] == 55;
    } else if x == 7 {
      assert KeyCodes[3][7] == 56;
    } else if x == 8 {
      assert KeyCodes[3][8] == 57;
    } else if x == 9 {
      assert KeyCodes[3][9] == 48;
    } else if x == 10 {
      assert KeyCodes[3][10] == 189;
    } else if x == 11 {
      assert KeyCodes[3][11] == 187;
    }
  }

  /** Every code lies at one place in the table only. */
  lemma PositionOf(x: nat, y: nat)
    requires y < |KeyCodes| && x < |KeyCodes[y]|
    ensures Position(KeyCodes[y][x]) == Some(Key(x, y))
  {
    if y == 0 {
      Row0Positions(x);
    } else if y == 1 {
      Row1Positions(x);
    } else if y == 2 {
      Row2Positions(x);
    } else {
      Row3Positions(x);
    }
  }

  /** Two keys with the same code are the same key. */
  lemma CodesUnique(x1: nat, y1: nat, x2: nat, y2: nat)
    requires y1 < |KeyCodes| && x1 < |KeyCodes[y1]| && y2 < |KeyCodes| && x2 < |KeyCodes[y2]|
    requires KeyCodes[y1][x1] == KeyCodes[y2][x2]
    ensures x1 == x2 && y1 == y2
  {
    PositionOf(x1, y1);
    PositionOf(x2, y2);
  }

  /** So every key's code leads back to that key. */
  lemma LocateKey(x: nat, y: nat)
    requires y < |KeyCodes| && x < |KeyCodes[y]|
    ensures Locate(KeyCodes[y][x]) == Some(Key(x, y))
  {
    var found := Locate(KeyCodes[y][x]);
    assert found.Some?;
    CodesUnique(found.value.x, found.value.y, x, y);
  }

  /**
   * The coordinates of a key: its column and row, or with normalisation the
   * column divided by the row's last column and the row divided by 3.
   */
  function Place(key: Key, normalize: bool): (c: Coordinates)
    requires key.y < |KeyCodes| && key.x < |KeyCodes[key.y]|
    ensures !normalize ==> c == Grid(key.x, key.y) && c.y <= 3 && c.x < |KeyCodes[key.y]|
    ensures normalize ==> c.Normalized? && 0.0 <= c.nx <= 1.0 && 0.0 <= c.ny <= 1.0
    ensures normalize ==> c.nx * (|KeyCodes[key.y]| - 1) as real == key.x as real && c.ny * 3.0 == key.y as real
  {
    if normalize then
      var width := (|KeyCodes[key.y]| - 1) as real;
      Normalized(key.x as real / width, key.y as real / 3.0)
    else
      Grid(key.x, key.y)
  }

  /** The arguments a callback with this many parameters is given. */
  function ArgumentsFor(parameters: nat, c: Coordinates, action: KeyAction, modifiers: seq<string>): (a: Arguments)
    ensures a.coordinates == c
    ensures parameters > 2 <==> a.WithModifiers?
    ensures parameters == 2 <==> a.WithAction?
    ensures parameters < 2 <==> a.CoordinatesOnly?
    ensures a.WithModifiers? ==> a.action == action && a.modifiers == modifiers
    ensures a.WithAction? ==> a.action == action
  {
    if parameters > 2 then WithModifiers(c, action, modifiers)
    else if parameters > 1 then WithAction(c, action)
    else CoordinatesOnly(c)
  }

  /** The callback call a key code causes: none for a code outside the table. */
  function Respond(callback: Callback, parameters: nat, normalize: bool, number: int, action: KeyAction, modifiers: seq<string>): (r: Option<Invocation>)
    ensures r.None? <==> forall k :: 0 <= k < |KeyCodes| ==> number !in KeyCodes[k]
    ensures r.Some? ==> r.value.callback == callback.id
    ensures r.Some? && !normalize ==>
      (exists x: nat, y: nat :: y < |KeyCodes| && x < |KeyCodes[y]| &&
        KeyCodes[y][x] == number && r.value.args.coordinates == Grid(x, y))
  {
    match Locate(number)
    case None => None
    case Some(key) => Some(Invocation(callback.id, ArgumentsFor(parameters, Place(key, normalize), action, modifiers)))
  }

  /** Pressing the key at column x of row y calls back with exactly (x, y). */
  lemma KeyCallsBack(callback: Callback, parameters: nat, x: nat, y: nat, action: KeyAction, modifiers: seq<string>)
    requires y < |KeyCodes| && x < |KeyCodes[y]|
    ensures Respond(callback, parameters, false, KeyCodes[y][x], action, modifiers).value.args.coordinates == Grid(x, y)
  {
    LocateKey(x, y);
  }

  /** The keyboard listener's state: the callback, its parameter count, the scaling flag and the held modifiers. */
  class KeyPlane {
    var callback: Callback
    /** The parameter count recorded by the callback setter, kept even when its check fails. */
    var numCallbackArguments: nat
    var normalizeCoordinates: bool
    var modifiersDown: seq<string>

    ghost predicate Valid()
      reads this
    {
      Builtins.Distinct(modifiersDown)
    }

    /** The state of a new key plane once the callback setter's check has passed. */
    constructor(callback: Callback, normalizeCoordinates: bool)
      requires callback.parameters > 0
      ensures this.callback == callback && numCallbackArguments == callback.parameters
      ensures this.normalizeCoordinates == normalizeCoordinates && modifiersDown == []
      ensures Valid()
    {
      this.callback := callback;
      numCallbackArguments := callback.parameters;
      this.normalizeCoordinates := normalizeCoordinates;
      modifiersDown := [];
    }

    /**
     * `KeyPlane(callback, normalize_coordinates)`: the constructor assigns
     * through the callback setter, so a callback without parameters fails its
     * assertion and no key plane is made.
     */
    static method Create(callback: Callback, normalizeCoordinates: bool) returns (r: Result<KeyPlane, KeyPlaneError>)
      ensures r.Failure? <==> callback.parameters == 0
      ensures r.Failure? ==> r.error == AssertionError
      ensures r.Success? ==> fresh(r.value) && r.value.Valid()
      ensures r.Success? ==> r.value.callback == callback && r.value.numCallbackArguments == callback.parameters
      ensures r.Success? ==> r.value.normalizeCoordinates == normalizeCoordinates && r.value.modifiersDown == []
    {
      if callback.parameters == 0 {
        return Failure(AssertionError);
      }
      var plane := new KeyPlane(callback, normalizeCoordinates);
      r := Success(plane);
    }

    /**
     * The `callback` setter: records the parameter count, then refuses a
     * callback without parameters, keeping the old callback but not its count.
     */
    method SetCallback(value: Callback) returns (r: Result<(), KeyPlaneError>)
      modifies this
      ensures numCallbackArguments == value.parameters
      ensures r.Success? <==> value.parameters > 0
      ensures callback == if value.parameters > 0 then value else old(callback)
      ensures normalizeCoordinates == old(normalizeCoordinates) && modifiersDown == old(modifiersDown)
    {
      numCallbackArguments := value.parameters;
      if numCallbackArguments == 0 {
        return Failure(AssertionError);
      }
      callback := value;
      r := Success(());
    }

    /** The held-modifier bookkeeping of the key handler, for an event with a name. */
    method UpdateModifiers(name: string, action: KeyAction)
      requires Valid()
      modifies this
      ensures Valid()
      ensures modifiersDown == ModifiersAfter(old(modifiersDown), name, action)
      ensures callback == old(callback) && numCallbackArguments == old(numCallbackArguments)
      ensures normalizeCoordinates == old(normalizeCoordinates)
    {
      ModifiersStayDistinct(modifiersDown, name, action);
      if StripRight(name) in AllModifiers {
        var modifier := StripRight(name);
        if action == Press {
          if modifier !in modifiersDown {
            modifiersDown := modifiersDown + [modifier];
          }
        } else {
          if modifier in modifiersDown {
            var i := Builtins.IndexOf(modifiersDown, modifier);
            modifiersDown := modifiersDown[..i] + modifiersDown[i + 1..];
          }
        }
      }
    }

    /** The call made for a key found in the table, by the callback's parameter count. */
    method CallBack(key: Key, action: KeyAction) returns (invocation: Invocation)
      requires key.y < |KeyCodes| && key.x < |KeyCodes[key.y]|
      ensures invocation == Invocation(callback.id, ArgumentsFor(numCallbackArguments, Place(key, normalizeCoordinates), action, modifiersDown))
    {
      var coordinates := Grid(key.x, key.y);
      if normalizeCoordinates {
        coordinates := Normalized(key.x as real / (|KeyCodes[key.y]| - 1) as real, key.y as real / 3.0);
      }
      var args;
      if numCallbackArguments > 2 {
        args := WithModifiers(coordinates, action, modifiersDown);
      } else if numCallbackArguments > 1 {
        args := WithAction(coordinates, action);
      } else {
        args := CoordinatesOnly(coordinates);
      }
      invocation := Invocation(callback.id, args);
    }

    /**
     * The key handler: ignores events without a name, updates the held
     * modifiers, then calls back for the first row holding the key code.
     */
    method HandleKey(name: Option<string>, number: int, action: KeyAction) returns (call: Option<Invocation>)
      requires Valid()
      modifies this
      ensures Valid()
      ensures name.None? ==> call.None? && modifiersDown == old(modifiersDown)
      ensures name.Some? ==> modifiersDown == ModifiersAfter(old(modifiersDown), name.value, action)
      ensures name.Some? ==> call == Respond(callback, numCallbackArguments, normalizeCoordinates, number, action, modifiersDown)
      ensures callback == old(callback) && numCallbackArguments == old(numCallbackArguments)
      ensures normalizeCoordinates == old(normalizeCoordinates)
    {
      if name.None? {
        return None;
      }
      UpdateModifiers(name.value, action);
      var y := 0;
      while y < |KeyCodes|
        invariant 0 <= y <= |KeyCodes|
        invariant LocateFrom(number, y) == Locate(number)
      {
        var row := KeyCodes[y];
        if number in row {
          var x := Builtins.IndexOf(row, number);
          assert Locate(number) == Some(Key(x, y));
          var invocation := CallBack(Key(x, y), action);
          return Some(invocation);
        }
        y := y + 1;
      }
      assert Locate(number).None?;
      call := None;
    }
  }
}
