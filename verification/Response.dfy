/** What the error callback of a font stash may ask for when the atlas is full, and the space that this makes. */
module Response {
  import opened Bits
  import opened Skyline
  import opened Atlas

  /** fonsExpandAtlas and fonsResetAtlas, each with the renderer's answer to the new size. */
  datatype Request = Expand(width: int, height: int, resized: bool) | Reset(width: int, height: int, resized: bool)

  predicate RequestOk(q: Request) {
    match q
    case Expand(w, h, _) => w <= MAX_SIZE && h <= MAX_SIZE
    case Reset(w, h, _) => 0 < w <= MAX_SIZE && 0 < h <= MAX_SIZE
  }

  /** The size of an atlas and its skyline: all that decides where a rectangle can be put. */
  datatype Room = Room(nodes: seq<Node>, width: int, height: int)

  ghost predicate RoomOk(p: Room) {
    0 < p.width && Tiled(p.nodes, 0, p.width)
  }

  /** The skyline over nothing but the white rectangle, if there is space for that. */
  function ResetNodes(w: int, h: int): seq<Node> {
    if w < 2 || h <= 2 then [Node(0, 0, w)]
    else if w == 2 then [Node(0, 2, 2)]
    else [Node(0, 2, 2), Node(2, 0, w - 2)]
  }

  function AfterRequest(p: Room, q: Request): Room {
    match q
    case Expand(w, h, resized) =>
      if resized then
        Room(Widened(p.nodes, p.width, Max(w, p.width)), Max(w, p.width), Max(h, p.height))
      else p
    case Reset(w, h, resized) => if resized then Room(ResetNodes(w, h), w, h) else p
  }

  function AfterAll(p: Room, reaction: seq<Request>): Room {
    if reaction == [] then p
    else AfterRequest(AfterAll(p, reaction[..|reaction| - 1]), reaction[|reaction| - 1])
  }

  /** Some reset was granted. */
  predicate Resets(reaction: seq<Request>) {
    exists k :: 0 <= k < |reaction| && reaction[k].Reset? && reaction[k].resized
  }

  ghost predicate SpaceIn(p: Room, w: int, h: int)
    requires w > 0
  {
    exists i: nat :: Candidate(p.nodes, i, w, h, p.width, p.height)
  }

  // ---- A reset

  lemma ResetTiled(w: int, h: int)
    requires 0 < w
    ensures Tiled(ResetNodes(w, h), 0, w) && Merged(ResetNodes(w, h))
    ensures forall c | 0 <= c < w :: At(ResetNodes(w, h), c) == if w >= 2 && h > 2 && c < 2 then 2 else 0
  {
    var s := ResetNodes(w, h);
    assert |s| == 1 ==> s[1..] == [];
    assert |s| == 2 ==> s[1..] == [s[1]] && s[1..][1..] == [];
  }

  /** The white rectangle is put in the corner of an empty atlas, if it is less high and no wider than that. */
  lemma FlatPlace(w: int, h: int, b: nat, x: int, y: int)
    requires 0 < w && 0 < h
    ensures SpaceIn(Room([Node(0, 0, w)], w, h), 2, 2) <==> w >= 2 && h > 2
    ensures Best([Node(0, 0, w)], b, 2, 2, w, h, x, y) ==> x == 0 && y == 0
  {
    var s := [Node(0, 0, w)];
    assert s[1..] == [] && Tiled(s, 0, w);
    PlacedIff(s, 2, 2, w, h);
    if w >= 2 && h >= 2 {
      assert Fits(s, 0, 2, 2, w, h);
    }
    if Best(s, b, 2, 2, w, h, x, y) {
      MaxAtIsMax(s, 0, 2);
    }
  }

  /** A merged skyline over the white rectangle is the one above. */
  lemma WhiteSkyline(s: seq<Node>, w: int, h: int)
    requires 2 <= w && 2 < h && Tiled(s, 0, w) && Merged(s) && Raised([Node(0, 0, w)], s, Rect(0, 0, 2, 2), w)
    ensures s == ResetNodes(w, h)
  {
    ResetTiled(w, h);
    forall c | 0 <= c < w
      ensures At(s, c) == At(ResetNodes(w, h), c)
    {
      assert At([Node(0, 0, w)], c) == 0;
    }
    hide At, Merged;
    MergedUnique(s, ResetNodes(w, h), 0, w);
  }

  /** After a reset there is space for a rectangle beside the white one or above it. */
  predicate RoomAfterReset(w: int, h: int, gw: int, gh: int) {
    if w < 2 || h <= 2 then gw <= w && gh < h
    else if w == 2 then gw <= w && gh + 2 < h
    else (gw <= w - 2 && gh <= h) || (gw <= w && gh + 2 <= h)
  }

  lemma SpaceAfterReset(w: int, h: int, gw: int, gh: int)
    requires 0 < w && 0 < h && 0 < gw && 0 < gh
    ensures SpaceIn(Room(ResetNodes(w, h), w, h), gw, gh) <==> RoomAfterReset(w, h, gw, gh)
  {
    var s := ResetNodes(w, h);
    ResetTiled(w, h);
    PlacedIff(s, gw, gh, w, h);
    FitsAt(w, h, gw, gh, 0);
    if |s| == 2 {
      FitsAt(w, h, gw, gh, 1);
    }
  }

  lemma FitsAt(w: int, h: int, gw: int, gh: int, i: nat)
    requires 0 < w && 0 < h && 0 < gw && 0 < gh && i < |ResetNodes(w, h)|
    ensures var s := ResetNodes(w, h);
      Fits(s, i, gw, gh, w, h) <==> s[i].x + gw <= w && s[i].y + gh <= h
  {
    ResetTiled(w, h);
    var s := ResetNodes(w, h);
    assert s[i].x < w ==> At(s, s[i].x) == s[i].y;
    hide At;
  }

  // ---- An expansion

  /** Growing the atlas takes away no space. */
  lemma ExpandKeeps(p: Room, w: int, h: int, gw: int, gh: int)
    requires RoomOk(p) && 0 < gw && SpaceIn(p, gw, gh)
    ensures SpaceIn(AfterRequest(p, Expand(w, h, true)), gw, gh)
  {
    var p' := AfterRequest(p, Expand(w, h, true));
    WidenedTiled(p, p'.width);
    PlacedIff(p.nodes, gw, gh, p.width, p.height);
    PlacedIff(p'.nodes, gw, gh, p'.width, p'.height);
    hide Tiled, At;
    var i: nat :| i < |p.nodes| && Fits(p.nodes, i, gw, gh, p.width, p.height);
    TiledSplit(p.nodes, i, 0, p.width);
    assert Fits(p'.nodes, i, gw, gh, p'.width, p'.height);
    StillFits(p, i, gw, gh);
  }

  lemma StillFits(p: Room, i: nat, gw: int, gh: int)
    requires RoomOk(p) && 0 < gw && i < |p.nodes| && Fits(p.nodes, i, gw, gh, p.width, p.height)
    ensures |p.nodes| == 1 ==> p.nodes[0].y + gh <= p.height
  {
    assert At(p.nodes, p.nodes[i].x) + gh <= p.height;
    if |p.nodes| == 1 {
      assert At(p.nodes, p.nodes[0].x) == p.nodes[0].y;
    }
  }

  lemma WidenedTiled(p: Room, w: int)
    requires RoomOk(p) && w >= p.width
    ensures Tiled(Widened(p.nodes, p.width, w), 0, w) && p.nodes != []
    ensures forall c | 0 <= c < w :: At(Widened(p.nodes, p.width, w), c) == if c < p.width then At(p.nodes, c) else 0
  {
    if w > p.width {
      var n := [Node(p.width, 0, w - p.width)];
      assert n[1..] == [];
      TiledAppend(p.nodes, n, 0, p.width, w);
    }
  }

  /** The columns that a wider atlas gains have space of their own. */
  lemma ExpandMakes(p: Room, w: int, h: int, gw: int, gh: int)
    requires RoomOk(p) && 0 < gw <= w - p.width && 0 < gh && (gh <= h || gh <= p.height)
    ensures SpaceIn(AfterRequest(p, Expand(w, h, true)), gw, gh)
  {
    var p' := AfterRequest(p, Expand(w, h, true));
    WidenedTiled(p, w);
    hide Tiled, At;
    assert Fits(p'.nodes, |p.nodes|, gw, gh, p'.width, p'.height);
    PlacedIff(p'.nodes, gw, gh, p'.width, p'.height);
  }

  /** A granted reset to a size with space, and then nothing but expansions and refused resets, leaves space. */
  lemma {:induction false} ResetMakesSpace(p: Room, reaction: seq<Request>, k: nat, gw: int, gh: int)
    requires k < |reaction| && reaction[k].Reset? && reaction[k].resized && !Resets(reaction[k + 1..])
    requires 0 < reaction[k].width && 0 < reaction[k].height && 0 < gw && 0 < gh
    requires RoomAfterReset(reaction[k].width, reaction[k].height, gw, gh)
    ensures RoomOk(AfterAll(p, reaction)) && SpaceIn(AfterAll(p, reaction), gw, gh)
  {
    var n := |reaction| - 1;
    var q := reaction[n];
    if k == n {
      ResetTiled(q.width, q.height);
      SpaceAfterReset(q.width, q.height, gw, gh);
    } else {
      LaterRequests(reaction, k);
      ResetMakesSpace(p, reaction[..n], k, gw, gh);
      var p' := AfterAll(p, reaction[..n]);
      hide SpaceIn, Resets;
      if q.Expand? && q.resized {
        ExpandKeeps(p', q.width, q.height, gw, gh);
        WidenedTiled(p', Max(q.width, p'.width));
      }
    }
  }

  lemma LaterRequests(reaction: seq<Request>, k: nat)
    requires k + 1 < |reaction| && !Resets(reaction[k + 1..])
    ensures var n := |reaction| - 1;
      !Resets(reaction[..n][k + 1..]) && !(reaction[n].Reset? && reaction[n].resized)
  {
    var n := |reaction| - 1;
    var later := reaction[k + 1..];
    assert later[|later| - 1] == reaction[n];
    forall i | 0 <= i < |reaction[..n][k + 1..]|
      ensures reaction[..n][k + 1..][i] == later[i]
    {
    }
  }
}
