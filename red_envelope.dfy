/** The red-envelope entity record of src/backend/RedEnvelope.cpp and the
    grid position type it shares with the tank.

    The engine keeps envelopes by value in a std::vector, so the record is a
    datatype: `setPosition` on a slot is modelled by `SetPosition`, which
    yields the updated record that the engine stores back into that slot. */
module RedEnvelopes {

  /** An integer grid cell. */
  datatype Position = Position(x: int, y: int)

  datatype EnvelopeSize = Small | Medium | Large

  datatype RedEnvelope = RedEnvelope(
    id: nat,
    size: EnvelopeSize,
    value: int,
    position: Position,
    collectionRadius: int)
  {
    function GetId(): nat { id }
    function GetSize(): EnvelopeSize { size }
    function GetValue(): int { value }
    function GetPosition(): Position { position }
    function GetCollectionRadius(): int { collectionRadius }

    /** Moves the envelope; nothing but the position is touched. */
    function SetPosition(newPosition: Position): (r: RedEnvelope)
      ensures r.GetPosition() == newPosition
      ensures r.GetId() == GetId() && r.GetSize() == GetSize()
      ensures r.GetValue() == GetValue() && r.GetCollectionRadius() == GetCollectionRadius()
    {
      this.(position := newPosition)
    }
  }

  /** Every getter hands back exactly what the constructor was given; in
      particular the collection radius is stored, not derived from the size. */
  lemma ConstructorGetters(id: nat, size: EnvelopeSize, value: int, position: Position, radius: int)
    ensures var e := RedEnvelope(id, size, value, position, radius);
      e.GetId() == id && e.GetSize() == size && e.GetValue() == value &&
      e.GetPosition() == position && e.GetCollectionRadius() == radius
  {
  }
}
