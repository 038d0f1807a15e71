/** The ESP32 `Preferences` key/value store, as far as the installation key uses
    it. Strings, byte blobs and unsigned numbers are stored under string keys. */
module Prefs {
  import opened Ints

  datatype Entry = Text(text: string) | Blob(bytes: seq<byte>) | Number(number: u32)

  class Preferences {
    var store: map<string, Entry>

    constructor ()
      ensures store == map[]
    {
      store := map[];
    }

    /** `putString`: stores the text, replacing whatever the key held. */
    method PutString(key: string, value: string)
      modifies this
      ensures store == old(store)[key := Text(value)]
    {
      store := store[key := Text(value)];
    }

    /** `putBytes`: a zero-length blob is refused and stores nothing. */
    method PutBytes(key: string, value: seq<byte>)
      modifies this
      ensures store == if |value| == 0 then old(store) else old(store)[key := Blob(value)]
    {
      if |value| > 0 {
        store := store[key := Blob(value)];
      }
    }

    /** `putUInt` */
    method PutUInt(key: string, value: u32)
      modifies this
      ensures store == old(store)[key := Number(value)]
    {
      store := store[key := Number(value)];
    }

    /** `isKey`: whether the key holds a value of any kind. */
    predicate IsKey(key: string)
      reads this
    {
      key in store
    }

    /** `getString`: the stored text, or `default` when the key holds no text.
        It is the getter over the abstract store: its contract spells out the
        lookup because `Auth.LoadAfterSave` reads saved values back through it. */
    function GetString(key: string, default: string): (r: string)
      reads this
      ensures key in store && store[key].Text? ==> r == store[key].text
      ensures !(key in store && store[key].Text?) ==> r == default
    {
      if key in store && store[key].Text? then store[key].text else default
    }

    /** `getBytes` into a buffer of `maxLen` bytes: the bytes copied, whose count
        is the returned length. A blob longer than the buffer, a missing key and
        a key of another kind all read as zero bytes. */
    function GetBytes(key: string, maxLen: nat): (r: seq<byte>)
      reads this
      ensures |r| <= maxLen
      ensures |r| > 0 <==> key in store && store[key].Blob? && 0 < |store[key].bytes| <= maxLen
      ensures |r| > 0 ==> r == store[key].bytes
    {
      if key in store && store[key].Blob? && |store[key].bytes| <= maxLen then store[key].bytes else []
    }
  }
}
