/**
 * The stored record (`Sound` in types/sound.ts), the payload `create` accepts, the
 * partial patch `update` accepts, and the two object spreads that build records
 * from them.
 */
module Sounds {
  import opened Wrappers

  /** One stored sound. The optional properties of the TypeScript type are `Option`s. */
  datatype Sound = Sound(
    id: string,
    title: string,
    description: Option<string>,
    audioUrl: string,
    duration: Option<real>,
    color: Option<string>,
    createdDate: Option<string>,
    favorite: Option<bool>)

  /** `Omit<Sound, "id" | "created_date">`: what a caller hands to `create`. */
  datatype NewSound = NewSound(
    title: string,
    description: Option<string>,
    audioUrl: string,
    duration: Option<real>,
    color: Option<string>,
    favorite: Option<bool>)

  /** `Partial<Sound>`: `None` means the property is not in the patch. */
  datatype Patch = Patch(
    id: Option<string>,
    title: Option<string>,
    description: Option<string>,
    audioUrl: Option<string>,
    duration: Option<real>,
    color: Option<string>,
    createdDate: Option<string>,
    favorite: Option<bool>)

  /** The empty patch `{}`. */
  const NoChange := Patch(None, None, None, None, None, None, None, None)

  /**
   * The record viewed as a JavaScript object: one property name per field and the
   * value stored under it, `None` when the property is undefined.
   */
  datatype Field = Id | Title | Description | AudioUrl | Duration | Color | CreatedDate | Favorite

  datatype Value = Str(s: string) | Number(n: real) | Flag(b: bool)

  function StrOf(v: Option<string>): Option<Value> {
    if v.Some? then Some(Str(v.value)) else None
  }

  function NumberOf(v: Option<real>): Option<Value> {
    if v.Some? then Some(Number(v.value)) else None
  }

  function FlagOf(v: Option<bool>): Option<Value> {
    if v.Some? then Some(Flag(v.value)) else None
  }

  /** `s[f]` */
  function Get(s: Sound, f: Field): Option<Value> {
    match f
    case Id => Some(Str(s.id))
    case Title => Some(Str(s.title))
    case Description => StrOf(s.description)
    case AudioUrl => Some(Str(s.audioUrl))
    case Duration => NumberOf(s.duration)
    case Color => StrOf(s.color)
    case CreatedDate => StrOf(s.createdDate)
    case Favorite => FlagOf(s.favorite)
  }

  /** `payload[f]`; a payload has no `id` and no `created_date`. */
  function PayloadGet(p: NewSound, f: Field): Option<Value> {
    match f
    case Id => None
    case Title => Some(Str(p.title))
    case Description => StrOf(p.description)
    case AudioUrl => Some(Str(p.audioUrl))
    case Duration => NumberOf(p.duration)
    case Color => StrOf(p.color)
    case CreatedDate => None
    case Favorite => FlagOf(p.favorite)
  }

  /** `patch[f]` */
  function PatchGet(p: Patch, f: Field): Option<Value> {
    match f
    case Id => StrOf(p.id)
    case Title => StrOf(p.title)
    case Description => StrOf(p.description)
    case AudioUrl => StrOf(p.audioUrl)
    case Duration => NumberOf(p.duration)
    case Color => StrOf(p.color)
    case CreatedDate => StrOf(p.createdDate)
    case Favorite => FlagOf(p.favorite)
  }

  /** A property of the patch if it is there, otherwise the current one. */
  function Pick<T>(patched: Option<T>, current: T): T {
    if patched.Some? then patched.value else current
  }

  function PickOptional<T>(patched: Option<T>, current: Option<T>): Option<T> {
    if patched.Some? then patched else current
  }

  /**
   * `{ id, created_date, ...payload }`: the record `create` stores. Every property of
   * the payload is carried over unchanged, and the two stamped ones are added.
   */
  function NewRecord(payload: NewSound, id: string, createdDate: string): (r: Sound)
    ensures Get(r, Id) == Some(Str(id))
    ensures Get(r, CreatedDate) == Some(Str(createdDate))
    ensures forall f :: f != Id && f != CreatedDate ==> Get(r, f) == PayloadGet(payload, f)
    ensures Payload(r) == payload
  {
    Sound(id, payload.title, payload.description, payload.audioUrl, payload.duration,
          payload.color, Some(createdDate), payload.favorite)
  }

  /** The record with `id` and `created_date` dropped: what was supplied to `create`. */
  function Payload(s: Sound): NewSound {
    NewSound(s.title, s.description, s.audioUrl, s.duration, s.color, s.favorite)
  }

  /**
   * `{ ...current, ...patch }`: every property present in the patch overwrites the
   * record's, every absent one is kept.
   */
  function Merge(current: Sound, patch: Patch): (r: Sound)
    ensures forall f :: Get(r, f) == if PatchGet(patch, f).Some? then PatchGet(patch, f) else Get(current, f)
  {
    Sound(
      Pick(patch.id, current.id),
      Pick(patch.title, current.title),
      PickOptional(patch.description, current.description),
      Pick(patch.audioUrl, current.audioUrl),
      PickOptional(patch.duration, current.duration),
      PickOptional(patch.color, current.color),
      PickOptional(patch.createdDate, current.createdDate),
      PickOptional(patch.favorite, current.favorite))
  }

  /** Two records with the same value under every property are the same record. */
  lemma GetExtensional(s: Sound, t: Sound)
    requires forall f :: Get(s, f) == Get(t, f)
    ensures s == t
  {
    assert Get(s, Id) == Get(t, Id);
    assert Get(s, Title) == Get(t, Title);
    assert Get(s, Description) == Get(t, Description);
    assert Get(s, AudioUrl) == Get(t, AudioUrl);
    assert Get(s, Duration) == Get(t, Duration);
    assert Get(s, Color) == Get(t, Color);
    assert Get(s, CreatedDate) == Get(t, CreatedDate);
    assert Get(s, Favorite) == Get(t, Favorite);
  }

  /** Merging the empty patch gives back the record. */
  lemma MergeNoChange(s: Sound)
    ensures Merge(s, NoChange) == s
  {
    GetExtensional(Merge(s, NoChange), s);
  }

  /** Applying the same patch twice is the same as applying it once. */
  lemma MergeIdempotent(s: Sound, p: Patch)
    ensures Merge(Merge(s, p), p) == Merge(s, p)
  {
    GetExtensional(Merge(Merge(s, p), p), Merge(s, p));
  }

  /** `{ ...p, ...q }`: the properties of `q` win over those of `p`. */
  function Combine(p: Patch, q: Patch): (r: Patch)
    ensures forall f :: PatchGet(r, f) == if PatchGet(q, f).Some? then PatchGet(q, f) else PatchGet(p, f)
  {
    Patch(
      PickOptional(q.id, p.id),
      PickOptional(q.title, p.title),
      PickOptional(q.description, p.description),
      PickOptional(q.audioUrl, p.audioUrl),
      PickOptional(q.duration, p.duration),
      PickOptional(q.color, p.color),
      PickOptional(q.createdDate, p.createdDate),
      PickOptional(q.favorite, p.favorite))
  }

  /** Two updates in a row are one update with the combined patch. */
  lemma MergeCombine(s: Sound, p: Patch, q: Patch)
    ensures Merge(Merge(s, p), q) == Merge(s, Combine(p, q))
  {
    GetExtensional(Merge(Merge(s, p), q), Merge(s, Combine(p, q)));
  }
}
