/** The shapes of an exception configuration (src/types/nsprc.d.ts). */
module Types {
  import opened Wrappers

  /** `expiry?: string | number`. */
  datatype Expiry = ExpiryText(text: string) | ExpiryNumber(number: int)

  /** `NsprcConfigs`: one exception entry; every attribute is optional. */
  datatype NsprcConfigs = NsprcConfigs(active: Option<bool>, expiry: Option<Expiry>, notes: Option<string>)

  /** A value of the `NsprcFile` index signature: an entry or a bare string. */
  datatype NsprcEntry = Configs(configs: NsprcConfigs) | Note(text: string)

  /** `NsprcFile`: finding identifier to entry. */
  type NsprcFile = map<string, NsprcEntry>

  /** `NsprcFile | boolean`, what every configuration strategy yields. */
  datatype NsprcFileOrBool = File(file: NsprcFile) | Bool(flag: bool)

  /** The "no configuration" sentinel, `false`. */
  const NoConfig: NsprcFileOrBool := Bool(false)

  /** A thrown JavaScript `Error`, by its message. */
  datatype Error = Error(message: string)

  const UnsupportedFileType: Error := Error("Unsupported file type")
  const ProjectRootNotFound: Error := Error("Project root not found")
}
