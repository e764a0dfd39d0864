/** The leverless board. */
module Leverless {
  // Four movement tokens at fixed centres and every other key packed into the
  // action bank (`leverlessLayout`).

  import opened Options
  import opened Packing
  import opened PackingLayout

  datatype Role = Left | Down | Right | Up

  const ROLES := [Left, Down, Right, Up]

  /** The key names that may take a movement role, preferred first. */
  function Candidates(role: Role): (string, string) {
    match role
    case Left => ("A", "Left")
    case Down => ("S", "Down")
    case Right => ("D", "Right")
    case Up => ("W", "Up")
  }

  function CentreX(role: Role): int {
    match role case Left => 90000 case Down => 175000 case Right => 260000 case Up => 345000
  }

  function CentreY(role: Role): int {
    if role.Up? then 410000 else 330000
  }

  function Find(keys: seq<Key>, id: string): (r: Option<Key>)
    ensures r.Some? ==> r.value in keys && r.value.id == id
    ensures r.None? ==> forall i | 0 <= i < |keys| :: keys[i].id != id
  {
    if keys == [] then None
    else if keys[0].id == id then Some(keys[0])
    else Find(keys[1..], id)
  }

  function FindRole(keys: seq<Key>, role: Role): Option<Key> {
    var first := Find(keys, Candidates(role).0);
    if first.Some? then first else Find(keys, Candidates(role).1)
  }

  ghost predicate DistinctKeys(keys: seq<Key>) {
    forall i, j | 0 <= i < j < |keys| :: keys[i].id != keys[j].id
  }

  datatype Movement = Movement(role: Role, key: Key)

  function TokenWidth(mode: RenderMode): int {
    if mode.Arcade? then 60000 else 58000
  }

  /** One movement token: a generic square centred for its role. */
  function Token(m: Movement, mode: RenderMode): Packed {
    var height := Scaled(BaseHeight(mode), 20);
    Packed(m.key, TokenWidth(mode), height,
           RoundHalf(2 * CentreX(m.role) - TokenWidth(mode)), RoundHalf(2 * CentreY(m.role) - height))
  }

  function Unclaimed(keys: seq<Key>, claimed: set<string>): seq<Key> {
    if keys == [] then []
    else (if keys[0].id in claimed then [] else [keys[0]]) + Unclaimed(keys[1..], claimed)
  }

  function Claimed(keys: seq<Key>, claimed: set<string>): seq<Key> {
    if keys == [] then []
    else (if keys[0].id in claimed then [keys[0]] else []) + Claimed(keys[1..], claimed)
  }

  function MovementKeys(movement: seq<Movement>): (r: seq<Key>)
    ensures |r| == |movement| && forall i | 0 <= i < |r| :: r[i] == movement[i].key
  {
    seq(|movement|, i requires 0 <= i < |movement| => movement[i].key)
  }

  function Tokens(movement: seq<Movement>, mode: RenderMode): (r: seq<Packed>)
    ensures |r| == |movement| && forall i | 0 <= i < |r| :: r[i] == Token(movement[i], mode)
  {
    seq(|movement|, i requires 0 <= i < |movement| => Token(movement[i], mode))
  }

  function IdsOf(movement: seq<Movement>): set<string> {
    set i | 0 <= i < |movement| :: movement[i].key.id
  }

  /** Movement keys come from the selection, left to right on the board, none of
      them twice. */
  ghost predicate IsMovement(movement: seq<Movement>, keys: seq<Key>) {
    && (forall i | 0 <= i < |movement| :: movement[i].key in keys)
    && (forall i, j | 0 <= i < j < |movement| ::
          CentreX(movement[i].role) < CentreX(movement[j].role) && movement[i].key.id != movement[j].key.id)
  }

  /** The movement a role is given: its own key when one of the roles has one,
      and otherwise one of the first four keys. */
  function Fallback(keys: seq<Key>): seq<Movement> {
    if |keys| < 4 then []
    else [Movement(Left, keys[0]), Movement(Down, keys[1]), Movement(Right, keys[2]), Movement(Up, keys[3])]
  }

  function Named(keys: seq<Key>, roles: seq<Role>): seq<Movement> {
    if roles == [] then []
    else
      var last := roles[|roles| - 1];
      Named(keys, roles[..|roles| - 1])
      + (if FindRole(keys, last).Some? then [Movement(last, FindRole(keys, last).value)] else [])
  }

  lemma NamedIsMovement(keys: seq<Key>, r: nat)
    requires r <= 4
    ensures IsMovement(Named(keys, ROLES[..r]), keys)
    ensures forall m | m in Named(keys, ROLES[..r]) ::
              CentreX(m.role) <= 5000 + 85000 * r && FindRole(keys, m.role) == Some(m.key)
  {
    hide FindRole;
    if r > 0 {
      assert ROLES[..r][..r - 1] == ROLES[..r - 1];
      NamedIsMovement(keys, r - 1);
      var front := Named(keys, ROLES[..r - 1]);
      var last := ROLES[r - 1];
      assert CentreX(last) == 5000 + 85000 * r;
      FindRoleSpec(keys, last);
      forall i | 0 <= i < |front| && FindRole(keys, last).Some?
        ensures CentreX(front[i].role) < CentreX(last) && front[i].key.id != FindRole(keys, last).value.id
      {
        assert front[i] in front;
        FindRoleSpec(keys, front[i].role);
      }
    }
  }

  lemma FindRoleSpec(keys: seq<Key>, role: Role)
    ensures FindRole(keys, role).Some? ==>
              FindRole(keys, role).value in keys && RoleOfId(FindRole(keys, role).value.id) == Some(role)
  {
  }

  function RoleOfId(id: string): Option<Role> {
    if id == "A" || id == "Left" then Some(Left)
    else if id == "S" || id == "Down" then Some(Down)
    else if id == "D" || id == "Right" then Some(Right)
    else if id == "W" || id == "Up" then Some(Up)
    else None
  }

  /** Who takes a role: the letter key if it is there, or else the arrow. */
  lemma RoleTable(keys: seq<Key>, role: Role)
    ensures var letter, arrow := ["A", "S", "D", "W"], ["Left", "Down", "Right", "Up"];
      var n := match role case Left => 0 case Down => 1 case Right => 2 case Up => 3;
      match FindRole(keys, role)
      case Some(key) =>
        && key in keys
        && (key.id == letter[n] || (key.id == arrow[n] && forall i | 0 <= i < |keys| :: keys[i].id != letter[n]))
      case None => forall i | 0 <= i < |keys| :: keys[i].id != letter[n] && keys[i].id != arrow[n]
  {
  }

  /** Where a token stands: centred at its role's point. */
  lemma TokenTable(m: Movement, mode: RenderMode)
    ensures var t := Token(m, mode);
      && t.key == m.key && t.width == t.height == (if mode == Arcade then 60000 else 58000)
      && 2 * t.x + t.width == 2 * (match m.role case Left => 90000 case Down => 175000 case Right => 260000 case Up => 345000)
      && 2 * t.y + t.height == 2 * (if m.role == Up then 410000 else 330000)
  {
    TokenSize(mode);
  }

  lemma {:induction false} NamedNothing(keys: seq<Key>, roles: seq<Role>)
    requires forall role: Role :: FindRole(keys, role).None?
    ensures Named(keys, roles) == []
  {
    hide FindRole;
    if roles != [] {
      NamedNothing(keys, roles[..|roles| - 1]);
    }
  }

  /** Without any such key the first four keys move left, down, right and up. */
  lemma FirstFourMove(keys: seq<Key>)
    ensures (forall role: Role :: FindRole(keys, role).None?) ==> Named(keys, ROLES) == []
    ensures |keys| < 4 ==> Fallback(keys) == []
    ensures |keys| >= 4 ==> |Fallback(keys)| == 4 && forall i | 0 <= i < 4 :: Fallback(keys)[i] == Movement([Left, Down, Right, Up][i], keys[i])
  {
    hide FindRole;
    if forall role: Role :: FindRole(keys, role).None? {
      NamedNothing(keys, ROLES);
    }
  }

  lemma AllRoles(role: Role)
    ensures role in ROLES
  {
    assert ROLES[0] == Left && ROLES[1] == Down && ROLES[2] == Right && ROLES[3] == Up;
  }

  method ChooseMovement(keys: seq<Key>) returns (movement: seq<Movement>, claimed: set<string>)
    ensures movement == if Named(keys, ROLES) == [] then Fallback(keys) else Named(keys, ROLES)
    ensures claimed == IdsOf(movement)
  {
    movement, claimed := [], {};
    for r := 0 to |ROLES|
      invariant movement == Named(keys, ROLES[..r])
      invariant claimed == IdsOf(movement)
    {
      assert ROLES[..r + 1][..r] == ROLES[..r];
      var found := FindRole(keys, ROLES[r]);
      if found.Some? {
        IdsOfAppend(movement, Movement(ROLES[r], found.value));
        movement := movement + [Movement(ROLES[r], found.value)];
        claimed := claimed + {found.value.id};
      }
    }
    assert ROLES[..|ROLES|] == ROLES;
    if |movement| == 0 && |keys| >= 4 {
      for i := 0 to 4
        invariant movement == Fallback(keys)[..i]
        invariant claimed == IdsOf(movement)
      {
        IdsOfAppend(movement, Fallback(keys)[i]);
        movement := movement + [Movement(ROLES[i], keys[i])];
        claimed := claimed + {keys[i].id};
      }
    }
  }

  lemma IdsOfAppend(movement: seq<Movement>, m: Movement)
    ensures IdsOf(movement + [m]) == IdsOf(movement) + {m.key.id}
  {
    var more := movement + [m];
    assert more[|movement|] == m;
    assert forall i | 0 <= i < |movement| :: more[i] == movement[i];
  }

  // ----- every key is placed exactly once

  lemma {:induction false} ClaimSplits(keys: seq<Key>, claimed: set<string>)
    ensures multiset(Claimed(keys, claimed)) + multiset(Unclaimed(keys, claimed)) == multiset(keys)
    ensures forall k :: k in Claimed(keys, claimed) <==> k in keys && k.id in claimed
  {
    if keys != [] {
      ClaimSplits(keys[1..], claimed);
      assert keys == [keys[0]] + keys[1..];
    }
  }

  lemma {:induction false} UnclaimedAreValid(keys: seq<Key>, claimed: set<string>)
    requires ValidKeys(keys)
    ensures ValidKeys(Unclaimed(keys, claimed)) && |Unclaimed(keys, claimed)| <= |keys|
  {
    if keys != [] {
      UnclaimedAreValid(keys[1..], claimed);
      assert ValidKey(keys[0]);
    }
  }

  /** Repetition-free lists of the same elements are permutations. */
  lemma {:induction false} SameElements(a: seq<Key>, b: seq<Key>)
    requires DistinctKeys(a) && DistinctKeys(b)
    requires forall k :: k in a <==> k in b
    ensures multiset(a) == multiset(b)
  {
    OncePerElement(a);
    OncePerElement(b);
    forall k ensures multiset(a)[k] == multiset(b)[k] {
      assert k in multiset(a) <==> k in a;
      assert k in multiset(b) <==> k in b;
    }
  }

  lemma {:induction false} OncePerElement(a: seq<Key>)
    requires DistinctKeys(a)
    ensures forall k :: multiset(a)[k] <= 1
  {
    if a != [] {
      OncePerElement(a[1..]);
      assert a == [a[0]] + a[1..];
      assert a[0] !in a[1..];
    }
  }

  lemma {:induction false} ClaimedAreDistinct(keys: seq<Key>, claimed: set<string>)
    requires DistinctKeys(keys)
    ensures DistinctKeys(Claimed(keys, claimed))
  {
    if keys != [] {
      ClaimedAreDistinct(keys[1..], claimed);
      ClaimSplits(keys[1..], claimed);
      FirstIsDistinct(keys, Claimed(keys[1..], claimed));
    }
  }

  lemma FirstIsDistinct(keys: seq<Key>, out: seq<Key>)
    requires keys != [] && DistinctKeys(keys) && DistinctKeys(out) && forall k | k in out :: k in keys[1..]
    ensures DistinctKeys([keys[0]] + out)
  {
    forall i | 0 <= i < |out| ensures out[i].id != keys[0].id {
      assert out[i] in keys[1..];
      var j :| 0 <= j < |keys| - 1 && keys[1..][j] == out[i];
      assert keys[j + 1] == out[i];
    }
  }

  lemma MovementIsPartition(movement: seq<Movement>, keys: seq<Key>)
    requires DistinctKeys(keys) && IsMovement(movement, keys)
    ensures multiset(MovementKeys(movement)) + multiset(Unclaimed(keys, IdsOf(movement))) == multiset(keys)
  {
    var claimed := IdsOf(movement);
    ClaimSplits(keys, claimed);
    ClaimedAreDistinct(keys, claimed);
    forall k ensures k in MovementKeys(movement) <==> k in Claimed(keys, claimed) {
      if k in Claimed(keys, claimed) {
        var i :| 0 <= i < |movement| && movement[i].key.id == k.id;
        var a :| 0 <= a < |keys| && keys[a] == k;
        var b :| 0 <= b < |keys| && keys[b] == movement[i].key;
        assert a == b;
        assert MovementKeys(movement)[i] == k;
      }
    }
    SameElements(MovementKeys(movement), Claimed(keys, claimed));
  }

  lemma FallbackIsMovement(keys: seq<Key>)
    requires DistinctKeys(keys)
    ensures IsMovement(Fallback(keys), keys)
  {
  }

  // ----- the board

  const TOKEN_REGION := Region(60000, 300000, 315000, 140000)

  /** Tokens of different roles stand side by side, left of the action bank. */
  lemma TokensAreSpaced(movement: seq<Movement>, keys: seq<Key>, mode: RenderMode)
    requires IsMovement(movement, keys)
    ensures Spaced(Tokens(movement, mode), 0) && AllInside(Tokens(movement, mode), TOKEN_REGION)
  {
    TokenSize(mode);
    forall i, j | 0 <= i < j < |movement|
      ensures After(Tokens(movement, mode)[i], Tokens(movement, mode)[j], 0)
    {
      assert CentreX(movement[i].role) + 85000 <= CentreX(movement[j].role);
    }
  }

  lemma TokenSize(mode: RenderMode)
    ensures Scaled(BaseHeight(mode), 20) == TokenWidth(mode)
  {
  }

  /** The board: movement tokens, then the remaining keys packed in the action
      region at the ladder's scale. */
  ghost predicate IsBoard(placed: seq<Packed>, movement: seq<Movement>, bank: seq<Packed>, rows: seq<Row>, keys: seq<Key>, mode: RenderMode) {
    && movement == (if Named(keys, ROLES) == [] then Fallback(keys) else Named(keys, ROLES))
    && placed == Tokens(movement, mode) + bank
    && var actions := Unclaimed(keys, IdsOf(movement));
       IsPacking(bank, rows, actions, mode, LadderScale(actions, mode, ACTION_REGION, 20), ACTION_REGION)
       && LadderScale(actions, mode, ACTION_REGION, 20) >= 11
  }

  /** The leverless board of up to 128 keys: every key is placed exactly once,
      nothing overlaps, everything is on the board, and the final clamp changes
      nothing. The action bank never shrinks below 0.55. */
  method LeverlessBoard(keys: seq<Key>, mode: RenderMode) returns (placed: seq<Packed>)
    requires ValidKeys(keys) && DistinctKeys(keys) && |keys| <= 128
    ensures multiset(KeysOf(placed)) == multiset(keys)
    ensures Spaced(placed, 0) && AllInside(placed, BOARD)
    ensures exists movement, bank, rows :: IsBoard(placed, movement, bank, rows, keys, mode)
    ensures forall role: Role | FindRole(keys, role).Some? ::
              Token(Movement(role, FindRole(keys, role).value), mode) in placed
  {
    hide *;
    var movement, claimed := ChooseMovement(keys);
    ChosenMovement(keys, movement);
    var actions := Unclaimed(keys, claimed);
    UnclaimedAreValid(keys, claimed);
    ActionRegionIsProper();
    var bank := CompactLayout(actions, mode, ACTION_REGION);
    ghost var scale := LadderScale(actions, mode, ACTION_REGION, 20);
    ghost var rows :| IsPacking(bank, rows, actions, mode, scale, ACTION_REGION);
    PackingIsSound(bank, rows, actions, mode, scale, ACTION_REGION);
    ActionsAlwaysFit(actions, mode);
    SmallerScaleTaken(actions, mode, ACTION_REGION, scale, 11);
    var tokens := Tokens(movement, mode);
    TokensAreSpaced(movement, keys, mode);
    MovementIsPartition(movement, keys);
    TokensBesideBank(tokens, bank, GapAt(scale));
    KeysOnBoard(movement, mode, bank, actions);
    placed := ClampAll(tokens + bank);
    BoardIsUnclamped(tokens + bank);
    BoardIs(placed, movement, bank, rows, keys, mode);
    forall role: Role | FindRole(keys, role).Some?
      ensures Token(Movement(role, FindRole(keys, role).value), mode) in placed
    {
      TokensAreShown(movement, Movement(role, FindRole(keys, role).value), mode, bank);
    }
  }

  lemma BoardIs(placed: seq<Packed>, movement: seq<Movement>, bank: seq<Packed>, rows: seq<Row>, keys: seq<Key>, mode: RenderMode)
    requires movement == (if Named(keys, ROLES) == [] then Fallback(keys) else Named(keys, ROLES))
    requires placed == Tokens(movement, mode) + bank
    requires var actions := Unclaimed(keys, IdsOf(movement));
      IsPacking(bank, rows, actions, mode, LadderScale(actions, mode, ACTION_REGION, 20), ACTION_REGION)
      && LadderScale(actions, mode, ACTION_REGION, 20) >= 11
    ensures IsBoard(placed, movement, bank, rows, keys, mode)
  {
  }

  lemma ActionRegionIsProper()
    ensures ACTION_REGION.width >= 0
  {
  }

  lemma {:induction false} NamedHasRole(keys: seq<Key>, roles: seq<Role>, role: Role)
    requires role in roles && FindRole(keys, role).Some?
    ensures Movement(role, FindRole(keys, role).value) in Named(keys, roles)
  {
    hide FindRole;
    if role != roles[|roles| - 1] {
      NamedHasRole(keys, roles[..|roles| - 1], role);
    }
  }

  /** The chosen movement is sound, and every role with a key of its own has it. */
  lemma ChosenMovement(keys: seq<Key>, movement: seq<Movement>)
    requires DistinctKeys(keys)
    requires movement == if Named(keys, ROLES) == [] then Fallback(keys) else Named(keys, ROLES)
    ensures IsMovement(movement, keys)
    ensures forall role: Role | FindRole(keys, role).Some? :: Movement(role, FindRole(keys, role).value) in movement
  {
    hide FindRole, IsMovement, Fallback;
    NamedIsMovement(keys, 4);
    FallbackIsMovement(keys);
    assert ROLES[..4] == ROLES;
    forall role: Role | FindRole(keys, role).Some? ensures Movement(role, FindRole(keys, role).value) in movement {
      AllRoles(role);
      NamedHasRole(keys, ROLES, role);
    }
  }

  lemma TokensAreShown(movement: seq<Movement>, m: Movement, mode: RenderMode, bank: seq<Packed>)
    requires m in movement
    ensures Token(m, mode) in Tokens(movement, mode) + bank
  {
    hide Token;
    var i :| 0 <= i < |movement| && movement[i] == m;
    assert (Tokens(movement, mode) + bank)[i] == Token(m, mode);
  }

  lemma KeysOnBoard(movement: seq<Movement>, mode: RenderMode, bank: seq<Packed>, actions: seq<Key>)
    requires KeysOf(bank) == actions
    ensures multiset(KeysOf(Tokens(movement, mode) + bank)) == multiset(MovementKeys(movement)) + multiset(actions)
  {
    assert KeysOf(Tokens(movement, mode) + bank) == MovementKeys(movement) + actions;
  }

  lemma TokensBesideBank(tokens: seq<Packed>, bank: seq<Packed>, gap: int)
    requires Spaced(tokens, 0) && Spaced(bank, gap) && gap >= 0
    requires AllInside(tokens, TOKEN_REGION) && AllInside(bank, ACTION_REGION)
    ensures Spaced(tokens + bank, 0) && AllInside(tokens + bank, BOARD)
  {
    forall i, j | 0 <= i < j < |bank| ensures After(bank[i], bank[j], 0) {
      assert After(bank[i], bank[j], gap);
    }
    forall p, q | p in tokens && q in bank ensures After(p, q, 0) {
      var i :| 0 <= i < |tokens| && tokens[i] == p;
      var j :| 0 <= j < |bank| && bank[j] == q;
      assert Inside(tokens[i], TOKEN_REGION) && Inside(bank[j], ACTION_REGION);
    }
    SpacedConcat(tokens, bank, 0);
    forall i | 0 <= i < |tokens + bank| ensures Inside((tokens + bank)[i], BOARD) {
      if i < |tokens| {
        assert Inside(tokens[i], TOKEN_REGION);
      } else {
        assert Inside(bank[i - |tokens|], ACTION_REGION);
      }
    }
  }

  lemma BoardIsUnclamped(packed: seq<Packed>)
    requires AllInside(packed, BOARD)
    ensures ClampAll(packed) == packed
  {
    forall i | 0 <= i < |packed| ensures ClampPlaced(packed[i]) == packed[i] {
      ClampKeepsInside(packed[i], BOARD);
    }
  }
}
