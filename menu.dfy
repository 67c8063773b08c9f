/**
 * The start menu (src/menu.rs): a three-row selection moved with Up and
 * Down and confirmed with Enter.
 */
module Menu {
  import opened Options

  /** The menu rows in declaration order; `DecodeMode` is the default. */
  datatype Choice = DecodeMode | CodeTable | Shutdown {

    /** The discriminant, `self as usize`. */
    function Index(): (i: nat)
      ensures i < 3
    {
      match this
      case DecodeMode => 0
      case CodeTable => 1
      case Shutdown => 2
    }

    /** One row down, staying on the last row. */
    function Next(): (n: Choice)
      ensures Index() < 2 ==> n.Index() == Index() + 1
      ensures Index() == 2 ==> n == this
    {
      match this
      case DecodeMode => CodeTable
      case CodeTable => Shutdown
      case Shutdown => Shutdown
    }

    /** One row up, staying on the first row. */
    function Prev(): (p: Choice)
      ensures Index() > 0 ==> p.Index() == Index() - 1
      ensures Index() == 0 ==> p == this
    {
      match this
      case DecodeMode => DecodeMode
      case CodeTable => DecodeMode
      case Shutdown => CodeTable
    }
  }

  /** The table rows built by `Choice::rows`. */
  function Rows(): (rows: seq<string>)
    ensures |rows| == 3
  {
    ["Decode", "Morse Code Table", "Exit"]
  }

  /** Choices and their discriminants correspond one to one, and each
      discriminant selects an existing row. */
  lemma IndexSelectsRow(c: Choice, d: Choice)
    ensures c.Index() < |Rows()|
    ensures c.Index() == d.Index() <==> c == d
    ensures Choice.DecodeMode.Index() == 0
  {
  }

  lemma NextThenPrev(c: Choice)
    requires c != Shutdown
    ensures c.Next().Prev() == c
  {
  }

  lemma PrevThenNext(c: Choice)
    requires c != DecodeMode
    ensures c.Prev().Next() == c
  {
  }

  function NextN(c: Choice, k: nat): Choice
    decreases k
  {
    if k == 0 then c else NextN(c, k - 1).Next()
  }

  function PrevN(c: Choice, k: nat): Choice
    decreases k
  {
    if k == 0 then c else PrevN(c, k - 1).Prev()
  }

  /** `k` moves down reach row `min(index + k, 2)`. */
  lemma {:induction false} NextNIndex(c: Choice, k: nat)
    ensures NextN(c, k).Index() == if c.Index() + k < 2 then c.Index() + k else 2
    decreases k
  {
    if k > 0 {
      NextNIndex(c, k - 1);
    }
  }

  /** `k` moves up reach row `max(index - k, 0)`. */
  lemma {:induction false} PrevNIndex(c: Choice, k: nat)
    ensures PrevN(c, k).Index() == if c.Index() >= k then c.Index() - k else 0
    decreases k
  {
    if k > 0 {
      PrevNIndex(c, k - 1);
    }
  }

  /** Two or more moves down end on the last row, two or more up on the first. */
  lemma Saturation(c: Choice, k: nat)
    requires k >= 2
    ensures NextN(c, k) == Shutdown
    ensures PrevN(c, k) == DecodeMode
  {
    NextNIndex(c, k);
    PrevNIndex(c, k);
  }

  datatype KeyCode = Up | Down | Enter | Other

  /** The fields of `Menu`. */
  datatype MenuState = MenuState(exit: bool, selection: Choice)

  /** `handle_key_event` on the fields: only Enter sets `exit`, and nothing
      clears it. */
  function HandleKey(m: MenuState, key: KeyCode): (r: MenuState)
    ensures r.exit <==> m.exit || key == Enter
  {
    match key
    case Up => m.(selection := m.selection.Prev())
    case Down => m.(selection := m.selection.Next())
    case Enter => m.(exit := true)
    case Other => m
  }

  /** The key presses `run`'s loop consumes: all of `keys` until `exit` is set.
      The loop ends exactly when it was already over or an Enter comes. */
  function Drive(m: MenuState, keys: seq<KeyCode>): (r: MenuState)
    ensures r.exit <==> m.exit || Enter in keys
    ensures m.exit ==> r == m
    decreases |keys|
  {
    if m.exit || keys == [] then m
    else
      assert Enter in keys <==> keys[0] == Enter || Enter in keys[1..];
      Drive(HandleKey(m, keys[0]), keys[1..])
  }

  /** The selection after moving through `keys`, ignoring Enter. */
  function Moves(c: Choice, keys: seq<KeyCode>): Choice
    decreases |keys|
  {
    if keys == [] then c
    else Moves(match keys[0] case Up => c.Prev() case Down => c.Next() case _ => c, keys[1..])
  }

  /** Without Enter the loop never ends and the selection follows the moves. */
  lemma {:induction false} DriveWithoutEnter(m: MenuState, keys: seq<KeyCode>)
    requires !m.exit && Enter !in keys
    ensures Drive(m, keys) == MenuState(false, Moves(m.selection, keys))
    decreases |keys|
  {
    if keys != [] {
      assert keys[0] != Enter;
      DriveWithoutEnter(HandleKey(m, keys[0]), keys[1..]);
    }
  }

  /** The first Enter ends the loop with the selection the moves before it
      reached; the keys after it are not consumed. */
  lemma {:induction false} DriveStopsAtEnter(m: MenuState, before: seq<KeyCode>, after: seq<KeyCode>)
    requires !m.exit && Enter !in before
    ensures Drive(m, before + [Enter] + after) == MenuState(true, Moves(m.selection, before))
    decreases |before|
  {
    var keys := before + [Enter] + after;
    if before == [] {
      assert keys[0] == Enter && keys[1..] == after;
      assert Drive(HandleKey(m, Enter), after) == HandleKey(m, Enter);
    } else {
      assert keys[0] == before[0] && keys[1..] == before[1..] + [Enter] + after;
      assert before[0] != Enter;
      DriveStopsAtEnter(HandleKey(m, before[0]), before[1..], after);
    }
  }

  /** Any other key leaves both fields alone; moves never touch `exit`. */
  lemma KeyFrames(m: MenuState, key: KeyCode)
    ensures key == Other ==> HandleKey(m, key) == m
    ensures key != Enter ==> HandleKey(m, key).exit == m.exit
    ensures key == Enter ==> HandleKey(m, key).selection == m.selection
  {
  }

  class Menu {
    var exit: bool
    var selection: Choice

    ghost function Model(): MenuState
      reads this
    {
      MenuState(exit, selection)
    }

    /** `Menu::new`, the derived default. */
    constructor ()
      ensures Model() == MenuState(false, DecodeMode)
    {
      exit := false;
      selection := DecodeMode;
    }

    method HandleKeyEvent(key: KeyCode)
      modifies this
      ensures Model() == HandleKey(old(Model()), key)
    {
      match key
      case Up => selection := selection.Prev();
      case Down => selection := selection.Next();
      case Enter => exit := true;
      case Other =>
    }

    /** `run` reading key presses from `keys`. It returns the selection once
        Enter ends the loop and resets `exit` for the next call; when `keys`
        runs out first it returns `None`, where the terminal would block. */
    method Run(keys: seq<KeyCode>) returns (r: Option<Choice>)
      modifies this
      ensures var m := Drive(old(Model()), keys);
        if m.exit then r == Some(m.selection) && Model() == MenuState(false, m.selection)
        else r == None && Model() == m
    {
      var i := 0;
      while !exit && i < |keys|
        invariant 0 <= i <= |keys|
        invariant Drive(Model(), keys[i..]) == Drive(old(Model()), keys)
        decreases |keys| - i
      {
        assert keys[i..][0] == keys[i] && keys[i..][1..] == keys[i + 1..];
        HandleKeyEvent(keys[i]);
        i := i + 1;
      }
      if exit {
        r := Some(selection);
        exit := false;
      } else {
        assert keys[i..] == [];
        r := None;
      }
    }
  }
}
