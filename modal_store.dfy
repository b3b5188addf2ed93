/** The global modal store (store/modalStore.ts): which modal is shown, whether it
    is open, and the payload it was opened with. */
module ModalStore {
  import opened Js

  /** `ModalType` without its `null` member; `null` is `None` in an `Option<ModalKind>`. */
  datatype ModalKind = TeamModal | ProjectModal | NewTaskModal

  /** A payload field declared `?: string | null`: absent, null, or a string. */
  datatype Field = Undefined | Null | Str(s: string)

  datatype Payload = Payload(teamId: Field, projectId: Field)

  /** The data part of the store; `payload` is `None` until the first `openModal`. */
  datatype ModalState = ModalState(kind: Option<ModalKind>, isOpen: bool, payload: Option<Payload>)

  /** A payload field is truthy iff it holds a non-empty string. */
  predicate FieldTruthy(f: Field) {
    f.Str? && f.s != ""
  }

  /** `const { teamId } = payload || { teamId: null }` */
  function TeamIdOf(p: Option<Payload>): (f: Field)
    ensures p.None? ==> f == Null
  {
    if p.Some? then p.value.teamId else Null
  }

  /** `const { projectId } = payload || { projectId: null }` */
  function ProjectIdOf(p: Option<Payload>): (f: Field)
    ensures p.None? ==> f == Null
  {
    if p.Some? then p.value.projectId else Null
  }

  const Initial := ModalState(None, false, None)

  /** The state `openModal(t, p)` leaves: the first write (`isOpen: false`) is
      overwritten by the second. */
  function Open(s: ModalState, t: Option<ModalKind>, p: Payload): ModalState {
    var cleared := s.(isOpen := false);
    cleared.(kind := t, isOpen := true, payload := Some(p))
  }

  /** The state `closeModal()` leaves: `set` merges, so the payload is kept. */
  function Close(s: ModalState): ModalState {
    s.(kind := None, isOpen := false)
  }

  /** Opening overwrites all three fields, whatever the prior state. */
  lemma OpenForgetsPriorState(s: ModalState, s': ModalState, t: Option<ModalKind>, p: Payload)
    ensures Open(s, t, p) == Open(s', t, p) == ModalState(t, true, Some(p))
  {
  }

  /** Closing clears the kind and the open flag, keeps the payload, and is idempotent. */
  lemma CloseKeepsPayloadAndIsIdempotent(s: ModalState)
    ensures Close(s).kind.None? && !Close(s).isOpen
    ensures Close(s).payload == s.payload
    ensures Close(Close(s)) == Close(s)
  {
  }

  /** `isOpen <==> kind != null` is not an invariant: `openModal(null, p)` is allowed. */
  lemma OpenWithNullKind(s: ModalState, p: Payload)
    ensures Open(s, None, p).isOpen && Open(s, None, p).kind.None?
  {
  }

  /** The zustand store object, whose fields `openModal` and `closeModal` overwrite. */
  class Store {
    var kind: Option<ModalKind>
    var isOpen: bool
    var payload: Option<Payload>

    function State(): ModalState
      reads this
    {
      ModalState(kind, isOpen, payload)
    }

    constructor ()
      ensures State() == Initial
    {
      kind, isOpen, payload := None, false, None;
    }

    method OpenModal(t: Option<ModalKind>, p: Payload)
      modifies this
      ensures State() == Open(old(State()), t, p)
      ensures kind == t && isOpen && payload == Some(p)
    {
      isOpen := false;
      kind, isOpen, payload := t, true, Some(p);
    }

    method CloseModal()
      modifies this
      ensures State() == Close(old(State()))
      ensures kind.None? && !isOpen && payload == old(payload)
    {
      kind, isOpen := None, false;
    }
  }
}
