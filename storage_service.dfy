/** The storage abstraction (src/services/storage/index.js): one driver,
    chosen from `STORAGE_DRIVER` when the process starts, behind `upload`,
    `getURL` and (for the local driver only) `deleteFile`. */
module StorageService {

  import opened Wrappers
  import LocalStorage
  import S3Storage

  datatype Driver = Local | S3

  /** `process.env.STORAGE_DRIVER || 'local'`, then `'s3'` selects the object
      storage driver and anything else the local one. */
  function SelectDriver(env: Option<string>): (d: Driver)
    ensures d == S3 <==> env == Some("s3")
  {
    if env == Some("s3") then S3 else Local
  }

  /** The driver and `ASSET_BASE_URL`, both fixed for the life of the process. */
  datatype Config = Config(driver: Driver, assetBaseUrl: Option<string>)

  /** The exported surface of each driver. */
  function Exports(d: Driver): (names: set<string>)
    ensures "upload" in names && "getURL" in names
    ensures "deleteFile" in names <==> d == Local
  {
    match d
    case Local => {"upload", "getURL", "deleteFile"}
    case S3 => S3Storage.Exports
  }

  /** `storageService.getURL(locator)`. */
  function GetURL(config: Config, locator: Option<string>): (r: Option<string>)
    ensures r.None? <==> locator.None? || locator.value == ""
  {
    match config.driver
    case Local => LocalStorage.GetURL(locator, config.assetBaseUrl)
    case S3 => S3Storage.GetURL(locator, config.assetBaseUrl)
  }

  /** The message of the TypeError raised by calling `deleteFile` on a
      driver that does not export it. */
  const DeleteNotAFunction := "storageService.deleteFile is not a function"

  /** `await storageService.upload(file, tenant)`: the local driver writes to
      the disk, the object storage driver always fails and leaves it alone. */
  function UploadOutcome(config: Config, s: LocalStorage.DiskState, file: LocalStorage.UploadedFile,
                         tenant: string, io: LocalStorage.UploadIo)
    : (out: (Result<string, string>, LocalStorage.DiskState))
    ensures config.driver == S3 ==> out == (Err(S3Storage.NotImplementedMessage), s)
    ensures config.driver == Local ==> out == LocalStorage.UploadEffect(s, Some(file), tenant, io)
    ensures out.0.Err? ==> s.files.Keys <= out.1.files.Keys
  {
    match config.driver
    case Local => LocalStorage.UploadEffect(s, Some(file), tenant, io)
    case S3 => (S3Storage.Upload(Some(file), tenant), s)
  }

  /** `await storageService.deleteFile(path)`: the local driver's swallowing
      delete, or the TypeError of calling a function the driver lacks. */
  function DeleteOutcome(config: Config, files: map<string, seq<bv8>>, path: Option<string>, unlinkFails: bool)
    : (r: Result<map<string, seq<bv8>>, string>)
    ensures r.Err? <==> "deleteFile" !in Exports(config.driver)
    ensures r.Err? ==> r.error == DeleteNotAFunction
    ensures r.Ok? ==> r.value == LocalStorage.DeleteEffect(files, path, unlinkFails)
  {
    match config.driver
    case Local => Ok(LocalStorage.DeleteEffect(files, path, unlinkFails))
    case S3 => Err(DeleteNotAFunction)
  }

  /** `storageService.upload` against the disk the local driver writes to. */
  method Upload(config: Config, disk: LocalStorage.Disk, file: LocalStorage.UploadedFile,
                tenant: string, io: LocalStorage.UploadIo)
    returns (r: Result<string, string>)
    modifies disk
    ensures (r, disk.State()) == UploadOutcome(config, old(disk.State()), file, tenant, io)
  {
    if config.driver == S3 {
      r := S3Storage.Upload(Some(file), tenant);
    } else {
      r := disk.Upload(Some(file), tenant, io);
    }
  }

  /** `storageService.deleteFile` against the same disk. */
  method DeleteFile(config: Config, disk: LocalStorage.Disk, path: Option<string>, unlinkFails: bool)
    returns (r: Result<(), string>)
    modifies disk
    ensures disk.dirs == old(disk.dirs)
    ensures var out := DeleteOutcome(config, old(disk.files), path, unlinkFails);
      && (r.Err? <==> out.Err?)
      && (out.Ok? ==> disk.files == out.value)
      && (out.Err? ==> disk.files == old(disk.files) && r.error == out.error)
  {
    if config.driver == S3 {
      r := Err(DeleteNotAFunction);
    } else {
      disk.DeleteFile(path, unlinkFails);
      r := Ok(());
    }
  }
}
