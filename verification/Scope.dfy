/** Scopes (store/scope): the hierarchy Default -> Website -> Group -> Store, the
    packing of a scope type and its id into 32 bits, and permission bit sets. */
module Scope {
  import opened Decimal

  // scope.Type is a uint8; only the first five values are named.
  type Type = t: nat | t < 256

  const ABSENT: Type := 0
  const DEFAULT: Type := 1
  const WEBSITE: Type := 2
  const STORE: Type := 4
  const MAX_TYPE: Type := 5

  // The upper 8 bits hold the type, the lower 24 bits the id.
  type TypeID = t: nat | t < 0x1_0000_0000

  const MAX_ID := 0x7F_FFFF
  const DEFAULT_TYPE_ID: TypeID := 0x100_0000

  // A Perm is the set of bit positions that are 1 in the uint16.
  type Perm = set<nat>

  const PERM_STORE_REVERSE: Perm := {STORE}
  const PERM_WEBSITE_REVERSE: Perm := {STORE, WEBSITE}

  function TypeOf(t: TypeID): Type { t / 0x100_0000 }

  predicate IsWebsiteOrStore(t: Type) { t == WEBSITE || t == STORE }

  /** Scope type and id; (ABSENT, -1) when the id field is out of range. */
  function Unpack(t: TypeID): (r: (Type, int))
    ensures -1 <= r.1 <= MAX_ID
    ensures r.1 >= 0 <==> t % 0x100_0000 <= MAX_ID
    ensures if r.1 >= 0 then t == r.0 * 0x100_0000 + r.1 else r == (ABSENT, -1)
  {
    var id := t % 0x100_0000;
    if id > MAX_ID then (ABSENT, -1) else (t / 0x100_0000, id)
  }

  /** Packs a type and an id; 0 signals an id that cannot be packed. */
  function MakeTypeID(t: Type, id: int): TypeID
    requires -0x8000_0000_0000_0000 <= id < 0x8000_0000_0000_0000
  {
    if id > MAX_ID || (t > DEFAULT && id < 0) then 0
    else t * 0x100_0000 + (if t < WEBSITE then 0 else id)
  }

  predicate ValidTypeID(t: TypeID) {
    var (s, id) := Unpack(t);
    id >= 0 && s < MAX_TYPE
  }

  /** The text a scope is stored under in table core_config_data. */
  function StrType(t: Type): string {
    if t == WEBSITE then "websites" else if t == STORE then "stores" else "default"
  }

  predicate ValidStr(s: string) { s in {"default", "websites", "stores"} }

  function FromString(s: string): Type {
    if s == "websites" then WEBSITE else if s == "stores" then STORE else DEFAULT
  }

  /** "websites/3" or "stores/7"; nothing for every other scope. */
  function Human(t: TypeID): string {
    var (s, id) := Unpack(t);
    if IsWebsiteOrStore(s) then StrType(s) + "/" + Print(id) else ""
  }

  /** Packing loses nothing exactly for ids 0..MAX_ID of website, group and store scopes
      (and of any type from Website on); smaller types only keep id 0. */
  lemma PackRoundTrip(t: Type, id: int)
    requires -0x8000_0000_0000_0000 <= id < 0x8000_0000_0000_0000
    ensures Unpack(MakeTypeID(t, id)) == (t, id) <==>
              (t >= WEBSITE && 0 <= id <= MAX_ID) || (t < WEBSITE && id == 0)
  {
    if t >= WEBSITE && 0 <= id <= MAX_ID {
      assert (t * 0x100_0000 + id) / 0x100_0000 == t;
      assert (t * 0x100_0000 + id) % 0x100_0000 == id;
    }
  }

  /** Unpacking a valid scope and packing it again restores it, except that the id of an
      Absent or Default scope is dropped. */
  lemma UnpackRoundTrip(t: TypeID)
    requires ValidTypeID(t)
    ensures var (s, id) := Unpack(t);
            MakeTypeID(s, id) == if s >= WEBSITE then t else s * 0x100_0000
  {
    assert t == (t / 0x100_0000) * 0x100_0000 + t % 0x100_0000;
  }

  lemma FromStringOfStr(t: Type)
    ensures ValidStr(StrType(t))
    ensures FromString(StrType(t)) == if IsWebsiteOrStore(t) then t else DEFAULT
  {
  }
}
