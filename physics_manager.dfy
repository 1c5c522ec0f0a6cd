/**
 * The PhysicsManager singleton of src/manager/PhysicsManager.js: it owns the
 * physics world handle and the step parameters, installs one contact
 * callback per contact kind according to a 4-bit listener mask, and turns
 * each contact the world reports into messages for the message bus.
 *
 * The physics world is a record that logs the calls made on it; the game
 * object lookup `findByUid` is a function value; `MessageManager.register`
 * appends to the `bus` sequence.
 */
module Physics {
  import opened Wrappers
  import JsValues

  // -----------------------------------------------------------------------
  // The listener mask

  const BEGIN_CONTACT: bv32 := 1
  const END_CONTACT: bv32 := 2
  const BEGIN_END_CONTACT: bv32 := 3
  const PRE_SOLVE: bv32 := 4
  const POST_SOLVE: bv32 := 8
  const ALL_LISTENERS: bv32 := 15

  /** The 32-bit pattern `&` sees for a numeric mask (ToInt32, two's complement). */
  function MaskBits(mask: int): bv32
  {
    (mask % JsValues.TWO_32) as bv32
  }

  /** The mask constants are single bits, and the combined ones are their unions. */
  lemma MaskConstants()
    ensures BEGIN_END_CONTACT == BEGIN_CONTACT | END_CONTACT
    ensures ALL_LISTENERS == BEGIN_CONTACT | END_CONTACT | PRE_SOLVE | POST_SOLVE
    ensures BEGIN_CONTACT & END_CONTACT == 0 && BEGIN_CONTACT & PRE_SOLVE == 0 && BEGIN_CONTACT & POST_SOLVE == 0
    ensures END_CONTACT & PRE_SOLVE == 0 && END_CONTACT & POST_SOLVE == 0 && PRE_SOLVE & POST_SOLVE == 0
  {
  }

  datatype ContactKind = BeginContact | EndContact | PreSolve | PostSolve

  /** The mask bit that enables a kind's callback. */
  function Bit(kind: ContactKind): (b: bv32)
    ensures b & ALL_LISTENERS == b && b != 0
  {
    match kind
    case BeginContact => BEGIN_CONTACT
    case EndContact => END_CONTACT
    case PreSolve => PRE_SOLVE
    case PostSolve => POST_SOLVE
  }

  /** The message type tag of a kind. */
  function Tag(kind: ContactKind): (s: string)
    ensures |s| >= 8
  {
    match kind
    case BeginContact => "BeginContact"
    case EndContact => "EndContact"
    case PreSolve => "PreSolve"
    case PostSolve => "PostSolve"
  }

  /** Whether `listeners & bit` is truthy. */
  predicate Enabled(listeners: int, kind: ContactKind)
  {
    MaskBits(listeners) & Bit(kind) != 0
  }

  /** Each kind is enabled by its own bit only: ALL enables every kind, BEGIN_END exactly Begin and End. */
  lemma EnabledByMasks(kind: ContactKind, other: ContactKind)
    ensures Enabled(ALL_LISTENERS as int, kind)
    ensures Enabled(BEGIN_END_CONTACT as int, kind) <==> kind == BeginContact || kind == EndContact
    ensures Enabled(Bit(kind) as int, other) <==> other == kind
    ensures Enabled(0, kind) == false
  {
  }

  // -----------------------------------------------------------------------
  // Contacts, game objects and messages

  type Uid = int

  datatype GameObject = GameObject(id: string)

  /** What the callback receives: the fixtures' user data and opaque handles for the snapshots. */
  datatype Contact = Contact(uidA: Uid, uidB: Uid, contact: nat, snapshot: nat)

  /** The message data: the contact, with the manifold (PreSolve) or the impulse (PostSolve). */
  datatype Payload =
    | ContactOnly(contact: nat)
    | WithManifold(contact: nat, manifold: nat)
    | WithImpulse(contact: nat, impulse: nat)

  datatype Message = Message(sender: string, recipient: string, kind: string, data: Payload)

  function PayloadOf(kind: ContactKind, c: Contact): (p: Payload)
    ensures p.contact == c.contact
  {
    match kind
    case PreSolve => WithManifold(c.contact, c.snapshot)
    case PostSolve => WithImpulse(c.contact, c.snapshot)
    case _ => ContactOnly(c.contact)
  }

  /** A contact callback: one that registers messages, or `function() {}`. */
  datatype Handler = Emitting(kind: ContactKind) | NoOp

  /** The listener object createListener builds, with the game-object tree it resolves through. */
  datatype ContactListener = ContactListener(
    beginContact: Handler, endContact: Handler, preSolve: Handler, postSolve: Handler,
    findByUid: Uid -> Option<GameObject>)
  {
    function HandlerFor(kind: ContactKind): Handler
    {
      match kind
      case BeginContact => beginContact
      case EndContact => endContact
      case PreSolve => preSolve
      case PostSolve => postSolve
    }
  }

  /** createListener: each kind gets its emitting handler when its bit is set, else a no-op. */
  function CreateListener(listeners: int, findByUid: Uid -> Option<GameObject>): (l: ContactListener)
    ensures l.findByUid == findByUid
    ensures forall kind :: l.HandlerFor(kind) == (if Enabled(listeners, kind) then Emitting(kind) else NoOp)
  {
    ContactListener(
      if Enabled(listeners, BeginContact) then Emitting(BeginContact) else NoOp,
      if Enabled(listeners, EndContact) then Emitting(EndContact) else NoOp,
      if Enabled(listeners, PreSolve) then Emitting(PreSolve) else NoOp,
      if Enabled(listeners, PostSolve) then Emitting(PostSolve) else NoOp,
      findByUid)
  }

  /**
   * The messages a handler registers for one contact, or None when it throws.
   * The guard `if (goB)` precedes a read of `goA.id`, and `if (goA)` one of
   * `goB.id`, so a contact with exactly one resolved participant throws on
   * the missing one before anything is registered.
   */
  function ContactMessages(h: Handler, findByUid: Uid -> Option<GameObject>, c: Contact): Option<seq<Message>>
  {
    match h
    case NoOp => Some([])
    case Emitting(kind) =>
      var goA, goB := findByUid(c.uidA), findByUid(c.uidB);
      if goA.Some? && goB.Some? then
        Some([Message(goA.value.id, goB.value.id, Tag(kind), PayloadOf(kind, c)),
              Message(goB.value.id, goA.value.id, Tag(kind), PayloadOf(kind, c))])
      else if goA.None? && goB.None? then Some([])
      else None
  }

  /**
   * What a contact callback does, case by case: a disabled kind and a contact
   * with no resolved participant register nothing; two resolved participants
   * give exactly the pair A -> B then B -> A; one resolved participant throws.
   */
  lemma ContactMessagesCases(listeners: int, findByUid: Uid -> Option<GameObject>, kind: ContactKind, c: Contact)
    ensures var l := CreateListener(listeners, findByUid);
      var r := ContactMessages(l.HandlerFor(kind), findByUid, c);
      var goA, goB := findByUid(c.uidA), findByUid(c.uidB);
      && (!Enabled(listeners, kind) ==> r == Some([]))
      && (Enabled(listeners, kind) && goA.Some? && goB.Some? ==>
            r.Some? && |r.value| == 2
            && r.value[0].sender == goA.value.id && r.value[0].recipient == goB.value.id
            && r.value[1].sender == goB.value.id && r.value[1].recipient == goA.value.id
            && r.value[0].kind == r.value[1].kind == Tag(kind)
            && r.value[0].data == r.value[1].data == PayloadOf(kind, c))
      && (Enabled(listeners, kind) && goA.None? && goB.None? ==> r == Some([]))
      && (Enabled(listeners, kind) && goA.Some? != goB.Some? ==> r.None?)
  {
  }

  /** Swapping the two fixtures of a contact swaps the two messages. */
  lemma ContactMessagesSymmetric(h: Handler, findByUid: Uid -> Option<GameObject>, c: Contact)
    ensures var swapped := c.(uidA := c.uidB, uidB := c.uidA);
      var r, s := ContactMessages(h, findByUid, c), ContactMessages(h, findByUid, swapped);
      r.Some? == s.Some?
      && (r.Some? ==> |r.value| == |s.value| && (|r.value| == 2 ==> r.value[0] == s.value[1] && r.value[1] == s.value[0]))
  {
  }

  // -----------------------------------------------------------------------
  // The world and the manager

  /** The calls the manager makes on the physics world, in order. */
  datatype WorldCall =
    | SetContactListener
    | CreateBody(bodyDef: nat)
    | Step(timeStep: real, velocityIterations: int, positionIterations: int)
    | ClearForces

  datatype World = World(gravityX: real, gravityY: real, allowSleep: bool, calls: seq<WorldCall>)

  /** A RigidBody component: its body definition and the body the world created from it. */
  class RigidBody {
    var bodyDef: nat
    var body: Option<nat>

    constructor(bodyDef: nat)
      ensures this.bodyDef == bodyDef && body == None
    {
      this.bodyDef := bodyDef;
      body := None;
    }
  }

  /** The step used when the frame rate is not yet known (Timer.FRAME_RATE_60FPS). */
  const FRAME_RATE_60FPS: real := 1.0 / 60.0

  /** The step size update uses: 1 / fps, or the nominal 60 fps step when fps is falsy. */
  function StepSize(fps: Option<real>): (dt: real)
    ensures fps.Some? && fps.value != 0.0 ==> dt * fps.value == 1.0
    ensures (fps.None? || fps.value == 0.0) ==> dt == FRAME_RATE_60FPS
    ensures fps.Some? && fps.value > 0.0 ==> dt > 0.0
  {
    if fps.Some? && fps.value != 0.0 then 1.0 / fps.value else FRAME_RATE_60FPS
  }

  class PhysicsManager {
    var world: Option<World>
    var velocityIterations: int
    var positionIterations: int
    var clearForcesOnUpdate: bool
    var listeners: int
    var contactListener: Option<ContactListener>
    /** The message bus: every message registered so far, in order. */
    var bus: seq<Message>
    /** The number of bodies the world has created, used as the next body handle. */
    var bodies: nat

    /** The module's initial field values. */
    constructor()
      ensures world == None && contactListener == None && bus == [] && bodies == 0
      ensures velocityIterations == 2 && positionIterations == 2
      ensures !clearForcesOnUpdate && listeners == 0
    {
      world := None;
      velocityIterations := 2;
      positionIterations := 2;
      clearForcesOnUpdate := false;
      listeners := 0;
      contactListener := None;
      bus := [];
      bodies := 0;
    }

    /**
     * createWorld: a fresh world with the listener installed; the mask is
     * the argument, or BEGIN_END_CONTACT when the argument is falsy
     * (absent or 0); a falsy allowSleep is false.
     */
    method CreateWorld(gravityX: real, gravityY: real, allowSleep: bool, mask: Option<int>,
                       findByUid: Uid -> Option<GameObject>)
      modifies this
      ensures world == Some(World(gravityX, gravityY, allowSleep, [SetContactListener]))
      ensures listeners == if mask.None? || mask.value == 0 then BEGIN_END_CONTACT as int else mask.value
      ensures contactListener == Some(CreateListener(listeners, findByUid))
      ensures forall kind :: contactListener.value.HandlerFor(kind) == (if Enabled(listeners, kind) then Emitting(kind) else NoOp)
      ensures bus == old(bus) && bodies == old(bodies)
      ensures velocityIterations == old(velocityIterations) && positionIterations == old(positionIterations)
      ensures clearForcesOnUpdate == old(clearForcesOnUpdate)
    {
      var w := World(gravityX, gravityY, allowSleep, []);
      listeners := if mask.None? || mask.value == 0 then BEGIN_END_CONTACT as int else mask.value;
      contactListener := Some(CreateListener(listeners, findByUid));
      w := w.(calls := w.calls + [SetContactListener]);
      assert w.calls == [SetContactListener];
      world := Some(w);
    }

    /** attachToWorld: the world creates a body from the definition, stored on the component; throws without a world. */
    method AttachToWorld(rigidBody: RigidBody) returns (thrown: bool)
      modifies this, rigidBody
      ensures thrown <==> old(world).None?
      ensures thrown ==> world == old(world) && rigidBody.body == old(rigidBody.body) && bodies == old(bodies)
      ensures !thrown ==> world == Some(old(world).value.(calls := old(world).value.calls + [CreateBody(rigidBody.bodyDef)]))
      ensures !thrown ==> rigidBody.body == Some(old(bodies)) && bodies == old(bodies) + 1
      ensures rigidBody.bodyDef == old(rigidBody.bodyDef)
      ensures bus == old(bus) && listeners == old(listeners) && contactListener == old(contactListener)
    {
      if world.None? {
        return true;
      }
      var w := world.value;
      world := Some(w.(calls := w.calls + [CreateBody(rigidBody.bodyDef)]));
      rigidBody.body := Some(bodies);
      bodies := bodies + 1;
      return false;
    }

    /**
     * A contact callback of the installed listener: registers the messages
     * of ContactMessages one at a time, or throws (`thrown`) with nothing
     * registered.
     */
    method OnContact(kind: ContactKind, c: Contact) returns (thrown: bool)
      requires contactListener.Some?
      modifies this
      ensures var l := old(contactListener).value;
        var r := ContactMessages(l.HandlerFor(kind), l.findByUid, c);
        (thrown <==> r.None?) && (r.Some? ==> bus == old(bus) + r.value) && (r.None? ==> bus == old(bus))
      ensures world == old(world) && listeners == old(listeners) && contactListener == old(contactListener)
      ensures bodies == old(bodies)
    {
      var l := contactListener.value;
      match l.HandlerFor(kind)
      case NoOp =>
        return false;
      case Emitting(k) =>
        var goA := l.findByUid(c.uidA);
        var goB := l.findByUid(c.uidB);
        if goB.Some? {
          if goA.None? {
            return true;
          }
          bus := bus + [Message(goA.value.id, goB.value.id, Tag(k), PayloadOf(k, c))];
        }
        if goA.Some? {
          if goB.None? {
            return true;
          }
          bus := bus + [Message(goB.value.id, goA.value.id, Tag(k), PayloadOf(k, c))];
        }
        return false;
    }

    /**
     * update: with a world, one step of StepSize(fps) with the configured
     * iteration counts, then a force clear when clearForcesOnUpdate is set;
     * without a world, nothing happens.
     */
    method Update(fps: Option<real>)
      modifies this
      ensures old(world).None? ==> world == None
      ensures old(world).Some? ==> world == Some(old(world).value.(calls := old(world).value.calls
        + [Step(StepSize(fps), velocityIterations, positionIterations)]
        + (if clearForcesOnUpdate then [ClearForces] else [])))
      ensures bus == old(bus) && listeners == old(listeners) && contactListener == old(contactListener)
      ensures velocityIterations == old(velocityIterations) && positionIterations == old(positionIterations)
      ensures clearForcesOnUpdate == old(clearForcesOnUpdate) && bodies == old(bodies)
    {
      if world.Some? {
        var physicsFrameRate := if fps.Some? && fps.value != 0.0 then 1.0 / fps.value else FRAME_RATE_60FPS;
        var w := world.value;
        w := w.(calls := w.calls + [Step(physicsFrameRate, velocityIterations, positionIterations)]);
        if clearForcesOnUpdate {
          w := w.(calls := w.calls + [ClearForces]);
        } else {
          assert w.calls + [] == w.calls;
        }
        world := Some(w);
      }
    }
  }
}
