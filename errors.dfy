/** The exceptions the core raises, one constructor per exception class. */
module Errors {

  datatype Error =
    | SettingsBase        // DeadlinksSettinsBase
    | SettingsThreads     // DeadlinksSettinsThreads
    | SettingsRetry       // DeadlinksSettinsRetry
    | SettingsChange      // DeadlinksSettinsChange
    | SettingsDomain      // DeadlinksSettinsDomain
    | SettingsPathes      // DeadlinksSettinsPathes
    | SettingsRoot(message: string)  // DeadlinksSettingsRoot
    | IgnoredUrl(url: string, reason: string)  // DeadlinksIgnoredURL
    | TypeError           // Python's TypeError
    | AttributeError      // Python's AttributeError
}
