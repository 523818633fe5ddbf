/** The application identity value of utils/src/lib.rs. */
module UtilsLib {

  /** `AppInfo`: the application's name and version. */
  datatype AppInfo = AppInfo(name: string, version: string)
}
