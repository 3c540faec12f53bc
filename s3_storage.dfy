/** The object-storage driver (src/services/storage/s3.js). Its upload is a
    placeholder that always throws; its getURL prefixes the object key with
    the configured base URL. */
module S3Storage {

  import opened Wrappers
  import LocalStorage
  import Strings

  const NotImplementedMessage := "S3 storage is not implemented yet."

  /** `upload(file, destination)` throws whatever it is given. */
  function Upload(file: Option<LocalStorage.UploadedFile>, destination: string): (r: Result<string, string>)
    ensures r.Err? && r.error == NotImplementedMessage
  {
    Err(NotImplementedMessage)
  }

  /** `getURL(objectKey)`: `null` for a falsy key; the key itself when
      `ASSET_BASE_URL` is unset or empty; otherwise base, slash, key. */
  function GetURL(objectKey: Option<string>, env: Option<string>): (r: Option<string>)
    ensures r.None? <==> objectKey.None? || objectKey.value == ""
    ensures r.Some? && (env.None? || env.value == "") ==> r.value == objectKey.value
    ensures r.Some? && env.Some? && env.value != "" ==> r.value == env.value + "/" + objectKey.value
  {
    if objectKey.None? || objectKey.value == "" then None
    else if env.None? || env.value == "" then Some(objectKey.value)
    else Some(env.value + "/" + objectKey.value)
  }

  /** Unlike the local driver, no leading slash is stripped: distinct keys
      always give distinct URLs, so the key can be read back from the URL. */
  lemma GetURLInjective(k1: string, k2: string, env: Option<string>)
    requires GetURL(Some(k1), env) == GetURL(Some(k2), env)
    requires GetURL(Some(k1), env).Some?
    ensures k1 == k2
  {
    if env.Some? && env.value != "" {
      var u1, u2 := env.value + "/" + k1, env.value + "/" + k2;
      assert k1 == u1[|env.value| + 1..];
      assert k2 == u2[|env.value| + 1..];
    }
  }

  /** A key with a leading slash keeps it: with a base it yields a double
      slash where the local driver yields one. */
  lemma LeadingSlashKept(key: string, base: string)
    requires base != ""
    ensures GetURL(Some("/" + key), Some(base)) == Some(base + "//" + key)
    ensures LocalStorage.GetURL(Some("/" + key), Some(base)) == Some(base + "/" + key)
  {
    assert Strings.StartsWith("/" + key, "/");
    assert ("/" + key)[1..] == key;
    assert base + "/" + ("/" + key) == base + "//" + key;
  }

  /** The names the module exports. */
  const Exports: set<string> := {"upload", "getURL"}
}
