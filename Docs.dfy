/** Values shared by the backend's components: LangChain's `Document`
    (page text plus a metadata dictionary), one chat exchange, and the
    success/failure wrappers that stand for Python's exceptions. */
module Docs {
  import opened Text

  datatype Option<T> = None | Some(value: T)

  /** An operation that either returns a value or raises with a message. */
  datatype Result<T> = Success(value: T) | Failure(error: string)

  /** An operation without a value that either completes or raises with a message. */
  datatype Outcome = Done | Raised(error: string)

  /** The values this backend stores in metadata dictionaries: strings and integers. */
  datatype MetaValue = Str(s: string) | Int(i: int)

  /** A metadata dictionary, keyed by field name. */
  type Metadata = map<string, MetaValue>

  /** LangChain's `Document`: chunk text and its metadata. */
  datatype Document = Document(pageContent: string, metadata: Metadata)

  /** One turn of a conversation, as stored in a session's history. */
  datatype Exchange = Exchange(user: string, assistant: string)

  /** Python's `metadata.get(key)`. */
  function Get(m: Metadata, key: string): Option<MetaValue> {
    if key in m then Some(m[key]) else None
  }

  /** Python's `metadata.get(key, default)`. */
  function GetOr(m: Metadata, key: string, default: MetaValue): (v: MetaValue)
    ensures key in m ==> v == m[key]
    ensures key !in m ==> v == default
  {
    if key in m then m[key] else default
  }

  /** Python's `f"{v}"` for a metadata value. */
  function Render(v: MetaValue): string {
    match v
    case Str(s) => s
    case Int(i) => IntToString(i)
  }

  /** Python's `d.update(extra)`: keys of `extra` take its values, other keys of `d` are kept. */
  function Merge(d: Metadata, extra: Metadata): (r: Metadata)
    ensures r.Keys == d.Keys + extra.Keys
    ensures forall k :: k in extra ==> r[k] == extra[k]
    ensures forall k :: k in d && k !in extra ==> r[k] == d[k]
  {
    d + extra
  }

  /** Updating with an empty dictionary changes nothing. */
  lemma MergeNothing(d: Metadata, extra: Metadata)
    requires |extra| == 0
    ensures Merge(d, extra) == d
  {
    assert extra.Keys == {};
  }
}
