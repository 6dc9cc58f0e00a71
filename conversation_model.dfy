/** The conversation record stored in the local table and read back by the
    repository: one type carries the id, the owning user, the global order
    value and the label associations. */
module ConversationModel {

  /** Kotlin's nullable value: `None` stands for `null`. */
  datatype Option<+T> = None | Some(value: T)

  /** A label association of a conversation: the label's id and the
      label-scoped recency time (nullable). */
  datatype Label = Label(id: string, contextTime: Option<int>)

  /** A stored conversation row. */
  datatype Conv = Conv(id: string, userId: string, order: int, labels: seq<Label>)

  /** Position of the FIRST element of `s` satisfying `p`: the scan of
      Kotlin's `find`, and of a lookup by key in the table. */
  function FirstIndex<T>(s: seq<T>, p: T -> bool): (r: Option<nat>)
    ensures r.Some? ==> r.value < |s| && p(s[r.value])
    ensures r.Some? ==> forall k :: 0 <= k < r.value ==> !p(s[k])
    ensures r.None? <==> forall k :: 0 <= k < |s| ==> !p(s[k])
  {
    if s == [] then None
    else if p(s[0]) then Some(0)
    else match FirstIndex(s[1..], p)
      case None => None
      case Some(i) => Some(i + 1)
  }

  /** The first position satisfying `p` is the one `FirstIndex` finds. */
  lemma FirstIndexAt<T>(s: seq<T>, p: T -> bool, k: nat)
    requires k < |s| && p(s[k])
    requires forall m :: 0 <= m < k ==> !p(s[m])
    ensures FirstIndex(s, p) == Some(k)
  {
    var r := FirstIndex(s, p);
    assert r.Some?;
    assert !(r.value < k) && !(k < r.value);
  }

  /** The predicate `{ label -> label.id == labelId }`. */
  function LabelIdIs(labelId: string): Label -> bool
  {
    (l: Label) => l.id == labelId
  }

  /** `labels.find { label -> label.id == labelId }` */
  function FindLabel(labels: seq<Label>, labelId: string): Option<Label>
  {
    match FirstIndex(labels, LabelIdIs(labelId))
    case None => None
    case Some(i) => Some(labels[i])
  }

  /** `conversation.labels.find { it.id == labelId }?.contextTime`: the context
      time of the first matching label, `null` when no label matches. A later
      label with the same id never decides the value. */
  function ContextTime(c: Conv, labelId: string): (r: Option<int>)
    ensures forall i :: 0 <= i < |c.labels| && c.labels[i].id == labelId &&
                        (forall k :: 0 <= k < i ==> c.labels[k].id != labelId) ==>
                        r == c.labels[i].contextTime
    ensures (forall k :: 0 <= k < |c.labels| ==> c.labels[k].id != labelId) ==> r == None
  {
    match FindLabel(c.labels, labelId)
    case None => None
    case Some(l) => l.contextTime
  }
}
